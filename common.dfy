/** Shapes shared by the three components: failure-compatible wrappers, the
    decoded telemetry dictionary, and Python's forgiving slice semantics. */
module Common {

  datatype Option<T> = None | Some(value: T)

  datatype Result<T, E> = Ok(value: T) | Err(error: E)

  /** The dictionary `{"joints": ..., "imu": ...}` produced from one state
      packet. `F` is the element representation: raw 32-bit words straight off
      the wire, or reals once the values are used in arithmetic. */
  datatype StateDict<F> = StateDict(joints: seq<F>, imu: seq<F>)

  function Min(a: int, b: int): int
  {
    if a <= b then a else b
  }

  /** Python's `s[lo:hi]` for non-negative bounds: bounds past the end are
      clamped, so a short sequence yields a short (possibly empty) slice
      rather than an error. */
  function Slice<T>(s: seq<T>, lo: nat, hi: nat): (r: seq<T>)
    requires lo <= hi
    ensures |r| == Min(hi, |s|) - Min(lo, |s|)
    ensures hi <= |s| ==> r == s[lo..hi]
    ensures forall i :: 0 <= i < |r| ==> lo + i < |s| && r[i] == s[lo + i]
  {
    s[Min(lo, |s|)..Min(hi, |s|)]
  }

  /** `np.zeros(n)` */
  function Zeros(n: nat): (r: seq<real>)
    ensures |r| == n
    ensures forall i :: 0 <= i < n ==> r[i] == 0.0
  {
    seq(n, _ => 0.0)
  }
}
