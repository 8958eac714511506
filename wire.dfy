/** The byte layer of the UDP wire format: `struct`'s `<f` code packs one
    IEEE 754 binary32 value as four bytes, least significant byte first, with
    no padding between values. A float32 is treated here as an opaque 32-bit
    word, so what is stated is layout, length, order and round-trip. */
module Wire {

  type Byte = bv8
  type Word = bv32

  /** Bytes occupied by one `f` field. */
  const WordSize: nat := 4

  /** The four little-endian bytes of one word. */
  function PackWord(w: Word): (b: seq<Byte>)
    ensures |b| == WordSize
    ensures UnpackWord(b) == w
  {
    [(w & 0xFF) as Byte, ((w >> 8) & 0xFF) as Byte, ((w >> 16) & 0xFF) as Byte, (w >> 24) as Byte]
  }

  /** The word whose little-endian bytes are `b`. */
  function UnpackWord(b: seq<Byte>): (w: Word)
    requires |b| == WordSize
    ensures w == b[0] as Word + 0x100 * (b[1] as Word) + 0x1_0000 * (b[2] as Word) + 0x100_0000 * (b[3] as Word)
  {
    (b[0] as Word) | ((b[1] as Word) << 8) | ((b[2] as Word) << 16) | ((b[3] as Word) << 24)
  }

  /** Every 4-byte group is the packing of some word: unpacking loses nothing. */
  lemma PackUnpackWord(b: seq<Byte>)
    requires |b| == WordSize
    ensures PackWord(UnpackWord(b)) == b
  {
  }

  /** The bytes of the `i`-th word of a packed buffer. */
  function WordBytes(bs: seq<Byte>, i: nat): (b: seq<Byte>)
    requires WordSize * i + WordSize <= |bs|
    ensures |b| == WordSize
  {
    bs[WordSize * i..WordSize * i + WordSize]
  }

  /** `struct.pack("<nf", ...)`: the words one after another, each little-endian. */
  function PackWords(ws: seq<Word>): (bs: seq<Byte>)
    ensures |bs| == WordSize * |ws|
  {
    if ws == [] then [] else PackWord(ws[0]) + PackWords(ws[1..])
  }

  /** `struct.unpack("<nf", bs)` for a buffer whose length is a multiple of four. */
  function UnpackWords(bs: seq<Byte>): (ws: seq<Word>)
    requires |bs| % WordSize == 0
    ensures |ws| == |bs| / WordSize
    decreases |bs|
  {
    if bs == [] then [] else [UnpackWord(bs[..WordSize])] + UnpackWords(bs[WordSize..])
  }

  /** Word `i` of a packed sequence sits at bytes 4i..4i+3. */
  lemma {:induction false} PackWordsAt(ws: seq<Word>, i: nat)
    requires i < |ws|
    ensures WordBytes(PackWords(ws), i) == PackWord(ws[i])
  {
    if i > 0 {
      PackWordsAt(ws[1..], i - 1);
      assert PackWords(ws) == PackWord(ws[0]) + PackWords(ws[1..]);
      assert WordBytes(PackWords(ws), i) == WordBytes(PackWords(ws[1..]), i - 1);
    }
  }

  /** Unpacked word `i` is read from bytes 4i..4i+3. */
  lemma {:induction false} UnpackWordsAt(bs: seq<Byte>, i: nat)
    requires |bs| % WordSize == 0 && i < |bs| / WordSize
    ensures UnpackWords(bs)[i] == UnpackWord(WordBytes(bs, i))
    decreases i
  {
    if i > 0 {
      UnpackWordsAt(bs[WordSize..], i - 1);
      assert WordBytes(bs, i) == WordBytes(bs[WordSize..], i - 1);
    }
  }

  /** Packing distributes over concatenation. */
  lemma {:induction false} PackWordsAppend(a: seq<Word>, b: seq<Word>)
    ensures PackWords(a + b) == PackWords(a) + PackWords(b)
  {
    if a != [] {
      PackWordsAppend(a[1..], b);
      assert (a + b)[1..] == a[1..] + b;
    } else {
      assert a + b == b;
    }
  }

  /** Round trip, words first: unpacking a packed sequence gives it back. */
  lemma {:induction false} UnpackPackWords(ws: seq<Word>)
    ensures UnpackWords(PackWords(ws)) == ws
  {
    if ws != [] {
      var bs := PackWords(ws);
      assert bs[..WordSize] == PackWord(ws[0]);
      assert bs[WordSize..] == PackWords(ws[1..]);
      UnpackPackWords(ws[1..]);
    }
  }

  /** Round trip, bytes first: packing the unpacked words gives the buffer back. */
  lemma {:induction false} PackUnpackWords(bs: seq<Byte>)
    requires |bs| % WordSize == 0
    ensures PackWords(UnpackWords(bs)) == bs
    decreases |bs|
  {
    if bs != [] {
      PackUnpackWord(bs[..WordSize]);
      PackUnpackWords(bs[WordSize..]);
      var ws := UnpackWords(bs);
      assert ws[1..] == UnpackWords(bs[WordSize..]);
      assert bs == bs[..WordSize] + bs[WordSize..];
    }
  }
}
