/**
 The software fallback of the CRC-32C intrinsics: a half-byte table against the bit by bit
 definition of the reflected checksum.
 */
module Crc {

  // ----- polynomials over GF(2), bit 0 holding the highest power

  function Plus(a: bv32, b: bv32): bv32 { a ^ b }

  function Drop(a: bv32): bv32 { a >> 1 }

  predicate Low(a: bv32) { a & 1 != 0 }

  lemma PlusIsXor(a: bv32, b: bv32)
    ensures Plus(a, b) == a ^ b == b ^ a
  {
  }

  lemma PlusSwap(a: bv32, b: bv32, c: bv32)
    ensures Plus(Plus(a, b), c) == Plus(Plus(a, c), b)
  {
    hide Plus;
    PlusTwice(a, b, c);
    PlusTwice(a, c, b);
  }

  lemma PlusTwice(a: bv32, b: bv32, c: bv32)
    ensures Plus(Plus(a, b), c) == a ^ b ^ c
  {
  }

  lemma PlusZero(a: bv32)
    ensures Plus(a, 0) == a && Drop(1) == 0 && Low(1)
  {
  }

  lemma LowPlus(a: bv32, b: bv32)
    ensures Low(Plus(a, b)) == (Low(a) != Low(b))
  {
  }

  lemma DropPlus(a: bv32, b: bv32)
    ensures Drop(Plus(a, b)) == Plus(Drop(a), Drop(b))
  {
  }

  // ----- the checksum bit by bit

  /** Section 12.1 of RFC 3720, without the leading coefficient. */
  const POLYNOMIAL: bv32 := 0x1edc6f41
  const REVERSED_POLYNOMIAL: bv32 := 0x82f63b78

  /** Multiplies a remainder by x, modulo the polynomial. */
  function TimesX(p: bv32): bv32 {
    if High(p) then Plus(Raise(p), POLYNOMIAL) else Raise(p)
  }

  function Raise(p: bv32): bv32 { p << 1 }

  predicate High(p: bv32) { p & 0x80000000 != 0 }

  /** The same with the coefficients held in reverse order. */
  function Shift(crc: bv32): bv32 {
    if Low(crc) then Plus(Drop(crc), REVERSED_POLYNOMIAL) else Drop(crc)
  }

  function Reverse(x: bv32): bv32 {
    var a := ((x >> 1) & 0x55555555) | ((x & 0x55555555) << 1);
    var b := ((a >> 2) & 0x33333333) | ((a & 0x33333333) << 2);
    var c := ((b >> 4) & 0x0f0f0f0f) | ((b & 0x0f0f0f0f) << 4);
    var d := ((c >> 8) & 0x00ff00ff) | ((c & 0x00ff00ff) << 8);
    (d >> 16) | (d << 16)
  }

  function FeedBit(crc: bv32, bit: bool): bv32 {
    Shift(if bit then Plus(crc, 1) else crc)
  }

  lemma ReverseLow(p: bv32)
    ensures Reverse(Raise(p)) == Drop(Reverse(p))
    ensures Low(Reverse(p)) == High(p)
  {
  }

  lemma ReversePlus(p: bv32, q: bv32)
    ensures Reverse(Plus(p, q)) == Plus(Reverse(p), Reverse(q))
  {
  }

  lemma ReverseConstants()
    ensures Reverse(POLYNOMIAL) == REVERSED_POLYNOMIAL
    ensures Reverse(0x80000000) == 1
  {
  }

  /** Feeding a bit is a step of the division by the polynomial, on reversed coefficients: the
      message bit is added to the leading coefficient, then everything is multiplied by x. */
  lemma FeedBitDivides(p: bv32, bit: bool)
    ensures FeedBit(Reverse(p), bit) == Reverse(TimesX(if bit then Plus(p, 0x80000000) else p))
  {
    hide Reverse, Plus, Drop, Low, High, Raise;
    var q := if bit then Plus(p, 0x80000000) else p;
    ReverseConstants();
    ReversePlus(p, 0x80000000);
    ReverseLow(q);
    ReversePlus(Raise(q), POLYNOMIAL);
  }

  /** The message bits, each byte from its lowest bit up. */
  function Bits(bytes: seq<bv8>): (r: seq<bool>)
  {
    if bytes == [] then [] else Bits(bytes[..|bytes| - 1]) + ByteBits(bytes[|bytes| - 1])
  }

  function ByteBits(b: bv8): (r: seq<bool>)
    ensures |r| == 8
  {
    [b & 1 != 0, b & 2 != 0, b & 4 != 0, b & 8 != 0, b & 16 != 0, b & 32 != 0, b & 64 != 0, b & 128 != 0]
  }

  function Feed(crc: bv32, bits: seq<bool>): bv32 {
    if bits == [] then crc else FeedBit(Feed(crc, bits[..|bits| - 1]), bits[|bits| - 1])
  }

  function Checksum(crc: bv32, bytes: seq<bv8>): bv32 {
    Feed(crc, Bits(bytes))
  }

  // ----- four bits at a time

  function Shift4(crc: bv32): bv32 {
    Shift(Shift(Shift(Shift(crc))))
  }

  function Drop4(w: bv32): bv32 {
    Drop(Drop(Drop(Drop(w))))
  }

  function Feed4(crc: bv32, w: bv32): bv32 {
    var c1 := FeedBit(crc, Low(w));
    var c2 := FeedBit(c1, Low(Drop(w)));
    var c3 := FeedBit(c2, Low(Drop(Drop(w))));
    FeedBit(c3, Low(Drop(Drop(Drop(w)))))
  }

  /** A word added all at once is fed one bit per step. */
  lemma ShiftTakesBit(crc: bv32, w: bv32)
    ensures Shift(Plus(crc, w)) == Plus(FeedBit(crc, Low(w)), Drop(w))
  {
    hide Plus, Drop, Low;
    PlusZero(Drop(crc));
    LowPlus(crc, w);
    DropPlus(crc, w);
    LowPlus(crc, 1);
    DropPlus(crc, 1);
    PlusSwap(Drop(crc), Drop(w), REVERSED_POLYNOMIAL);
  }

  lemma FeedNibble(crc: bv32, w: bv32)
    ensures Shift4(Plus(crc, w)) == Plus(Feed4(crc, w), Drop4(w))
  {
    hide Plus, Drop, Low, FeedBit, Shift;
    var c1 := FeedBit(crc, Low(w));
    var c2 := FeedBit(c1, Low(Drop(w)));
    var c3 := FeedBit(c2, Low(Drop(Drop(w))));
    ShiftTakesBit(crc, w);
    ShiftTakesBit(c1, Drop(w));
    ShiftTakesBit(c2, Drop(Drop(w)));
    ShiftTakesBit(c3, Drop(Drop(Drop(w))));
  }

  // ----- the half-byte table

  const HALF_BYTE_TABLE: seq<bv32> := [
    0x00000000, 0x105ec76f, 0x20bd8ede, 0x30e349b1, 0x417b1dbc, 0x5125dad3,
    0x61c69362, 0x7198540d, 0x82f63b78, 0x92a8fc17, 0xa24bb5a6, 0xb21572c9,
    0xc38d26c4, 0xd3d3e1ab, 0xe330a81a, 0xf36e6f75
  ]

  lemma TableEntry(i: bv32)
    requires i < 16
    ensures HALF_BYTE_TABLE[i as nat] == Shift4(i)
  {
    if i < 8 {
      if i == 0 {} else if i == 1 {} else if i == 2 {} else if i == 3 {
      } else if i == 4 {} else if i == 5 {} else if i == 6 {} else {}
    } else {
      if i == 8 {} else if i == 9 {} else if i == 10 {} else if i == 11 {
      } else if i == 12 {} else if i == 13 {} else if i == 14 {} else {}
    }
  }

  lemma UpperBits(crc: bv32)
    ensures var w := crc & 0xfffffff0;
            && Plus(crc & 0x0f, w) == crc && Drop4(w) == crc >> 4
            && !Low(w) && !Low(Drop(w)) && !Low(Drop(Drop(w))) && !Low(Drop(Drop(Drop(w))))
  {
  }

  /** The upper bits only move down while the lowest four are divided. */
  lemma Shift4Splits(crc: bv32)
    ensures Shift4(crc) == Plus(Shift4(crc & 0x0f), crc >> 4)
  {
    hide Plus, Drop, Low, Shift, Drop4;
    UpperBits(crc);
    FeedNibble(crc & 0x0f, crc & 0xfffffff0);
  }

  /** One table step is four bit steps. */
  lemma NibbleStep(crc: bv32)
    ensures (crc >> 4) ^ HALF_BYTE_TABLE[(crc & 0x0f) as nat] == Shift4(crc)
  {
    hide Shift4, Plus;
    TableEntry(crc & 0x0f);
    Shift4Splits(crc);
    PlusIsXor(Shift4(crc & 0x0f), crc >> 4);
  }

  // ----- a byte at a time

  lemma ByteBitsDrop(b: bv8)
    ensures Bits4(b as bv32) + Bits4(Drop4(b as bv32)) == ByteBits(b)
    ensures Drop4(Drop4(b as bv32)) == 0
  {
  }

  function Bits4(w: bv32): seq<bool> {
    [Low(w), Low(Drop(w)), Low(Drop(Drop(w))), Low(Drop(Drop(Drop(w))))]
  }

  lemma {:induction false} FeedAppend(crc: bv32, a: seq<bool>, b: seq<bool>)
    ensures Feed(crc, a + b) == Feed(Feed(crc, a), b)
    decreases |b|
  {
    if b == [] {
      assert a + b == a;
    } else {
      assert (a + b)[..|a + b| - 1] == a + b[..|b| - 1];
      FeedAppend(crc, a, b[..|b| - 1]);
    }
  }

  lemma FeedNext(crc: bv32, bits: seq<bool>, k: nat)
    requires k < |bits|
    ensures Feed(crc, bits[..k + 1]) == FeedBit(Feed(crc, bits[..k]), bits[k])
  {
    assert bits[..k + 1][..k] == bits[..k];
  }

  lemma FeedBits4(crc: bv32, w: bv32)
    ensures Feed(crc, Bits4(w)) == Feed4(crc, w)
  {
    hide FeedBit, Drop, Low;
    var s := Bits4(w);
    assert s[..0] == [] && s[..4] == s;
    FeedNext(crc, s, 0);
    FeedNext(crc, s, 1);
    FeedNext(crc, s, 2);
    FeedNext(crc, s, 3);
  }

  /** What the two table steps of a byte compute. */
  lemma ChecksumByte(crc: bv32, b: bv8)
    ensures Checksum(crc, [b]) == Shift4(Shift4(Plus(crc, b as bv32)))
  {
    hide Shift4, Feed4, Feed, Plus, Drop4, Bits4, ByteBits;
    var w := b as bv32;
    assert Bits([b]) == ByteBits(b) by {
      assert [b][..0] == [] && Bits([b][..0]) == [];
    }
    ByteBitsDrop(b);
    FeedAppend(crc, Bits4(w), Bits4(Drop4(w)));
    FeedBits4(crc, w);
    FeedBits4(Feed4(crc, w), Drop4(w));
    FeedNibble(crc, w);
    FeedNibble(Feed4(crc, w), Drop4(w));
    PlusZero(Feed4(Feed4(crc, w), Drop4(w)));
  }

  lemma {:induction false} BitsAppend(a: seq<bv8>, b: seq<bv8>)
    ensures Bits(a + b) == Bits(a) + Bits(b)
    decreases |b|
  {
    if b == [] {
      assert a + b == a;
    } else {
      assert (a + b)[..|a + b| - 1] == a + b[..|b| - 1];
      BitsAppend(a, b[..|b| - 1]);
    }
  }

  /** The checksum of a message is that of its second part started from that of its first. */
  lemma ChecksumAppend(crc: bv32, a: seq<bv8>, b: seq<bv8>)
    ensures Checksum(crc, a + b) == Checksum(Checksum(crc, a), b)
  {
    BitsAppend(a, b);
    FeedAppend(crc, Bits(a), Bits(b));
  }

  // ----- the intrinsics

  method Crc32U8(start: bv32, v: bv8) returns (crc: bv32)
    ensures crc == Checksum(start, [v])
  {
    hide Shift4, Plus, Checksum;
    crc := start;
    crc := crc ^ v as bv32;
    PlusIsXor(start, v as bv32);
    NibbleStep(crc);
    crc := (crc >> 4) ^ HALF_BYTE_TABLE[(crc & 0x0f) as nat];
    NibbleStep(crc);
    crc := (crc >> 4) ^ HALF_BYTE_TABLE[(crc & 0x0f) as nat];
    ChecksumByte(start, v);
  }

  function Low8(v: bv16): bv8 { (v & 0xff) as bv8 }
  function High8(v: bv16): bv8 { ((v >> 8) & 0xff) as bv8 }
  function Low16(v: bv32): bv16 { (v & 0xffff) as bv16 }
  function High16(v: bv32): bv16 { ((v >> 16) & 0xffff) as bv16 }
  function Low32(v: bv64): bv32 { (v & 0xffffffff) as bv32 }
  function High32(v: bv64): bv32 { ((v >> 32) & 0xffffffff) as bv32 }

  /** The bytes of a word, lowest first. */
  function Bytes16(v: bv16): (r: seq<bv8>)
    ensures |r| == 2
  {
    [Low8(v)] + [High8(v)]
  }

  function Bytes32(v: bv32): (r: seq<bv8>)
    ensures |r| == 4
  {
    Bytes16(Low16(v)) + Bytes16(High16(v))
  }

  function Bytes64(v: bv64): (r: seq<bv8>)
    ensures |r| == 8
  {
    Bytes32(Low32(v)) + Bytes32(High32(v))
  }

  /** Byte `i` is what a shift by `8 * i` leaves in the lowest eight bits. */
  lemma WordBytesAt(h: bv16, w: bv32, d: bv64)
    ensures Bytes16(h) == [(h & 0xff) as bv8, ((h >> 8) & 0xff) as bv8]
    ensures Bytes32(w) == [(w & 0xff) as bv8, ((w >> 8) & 0xff) as bv8, ((w >> 16) & 0xff) as bv8,
                           ((w >> 24) & 0xff) as bv8]
    ensures Bytes64(d) == [(d & 0xff) as bv8, ((d >> 8) & 0xff) as bv8, ((d >> 16) & 0xff) as bv8,
                           ((d >> 24) & 0xff) as bv8, ((d >> 32) & 0xff) as bv8, ((d >> 40) & 0xff) as bv8,
                           ((d >> 48) & 0xff) as bv8, ((d >> 56) & 0xff) as bv8]
  {
    BytesOfWord32(w);
    BytesOfWord64(d);
    BytesOfWord32(Low32(d));
    BytesOfWord32(High32(d));
    hide Low32, High32;
  }

  lemma BytesOfWord32(w: bv32)
    ensures Low8(Low16(w)) == (w & 0xff) as bv8
    ensures High8(Low16(w)) == ((w >> 8) & 0xff) as bv8
    ensures Low8(High16(w)) == ((w >> 16) & 0xff) as bv8
    ensures High8(High16(w)) == ((w >> 24) & 0xff) as bv8
  {
  }

  lemma BytesOfWord64(d: bv64)
    ensures (Low32(d) & 0xff) as bv8 == (d & 0xff) as bv8
    ensures ((Low32(d) >> 8) & 0xff) as bv8 == ((d >> 8) & 0xff) as bv8
    ensures ((Low32(d) >> 16) & 0xff) as bv8 == ((d >> 16) & 0xff) as bv8
    ensures ((Low32(d) >> 24) & 0xff) as bv8 == ((d >> 24) & 0xff) as bv8
    ensures (High32(d) & 0xff) as bv8 == ((d >> 32) & 0xff) as bv8
    ensures ((High32(d) >> 8) & 0xff) as bv8 == ((d >> 40) & 0xff) as bv8
    ensures ((High32(d) >> 16) & 0xff) as bv8 == ((d >> 48) & 0xff) as bv8
    ensures ((High32(d) >> 24) & 0xff) as bv8 == ((d >> 56) & 0xff) as bv8
  {
  }

  method Crc32U16(start: bv32, v: bv16) returns (crc: bv32)
    ensures crc == Checksum(start, Bytes16(v))
    ensures crc == Checksum(start, [(v & 0xff) as bv8, ((v >> 8) & 0xff) as bv8])
  {
    WordBytesAt(v, 0, 0);
    hide Checksum, Low8, High8;
    crc := Crc32U8(start, Low8(v));
    crc := Crc32U8(crc, High8(v));
    ChecksumAppend(start, [Low8(v)], [High8(v)]);
  }

  method Crc32U32(start: bv32, v: bv32) returns (crc: bv32)
    ensures crc == Checksum(start, Bytes32(v))
    ensures crc == Checksum(start, [(v & 0xff) as bv8, ((v >> 8) & 0xff) as bv8, ((v >> 16) & 0xff) as bv8,
                                    ((v >> 24) & 0xff) as bv8])
  {
    WordBytesAt(0, v, 0);
    hide Checksum, Low16, High16, Bytes16;
    crc := Crc32U16(start, Low16(v));
    crc := Crc32U16(crc, High16(v));
    ChecksumAppend(start, Bytes16(Low16(v)), Bytes16(High16(v)));
  }

  function Widened(c: bv32): bv64 { c as bv64 }

  lemma LowHalf(c: bv32)
    ensures Low32(Widened(c)) == c
  {
  }

  lemma RegisterForm(start: bv64, v: bv64)
    ensures Widened(Checksum(Low32(start), Bytes64(v)))
         == Checksum((start & 0xffffffff) as bv32,
                     [(v & 0xff) as bv8, ((v >> 8) & 0xff) as bv8, ((v >> 16) & 0xff) as bv8, ((v >> 24) & 0xff) as bv8,
                      ((v >> 32) & 0xff) as bv8, ((v >> 40) & 0xff) as bv8, ((v >> 48) & 0xff) as bv8,
                      ((v >> 56) & 0xff) as bv8]) as bv64
  {
    WordBytesAt(0, 0, v);
    assert Low32(start) == (start & 0xffffffff) as bv32;
    hide Checksum, Bytes64, Low32;
  }

  /** Only the lower half of the 64-bit register takes part. */
  method Crc32U64(start: bv64, v: bv64) returns (crc: bv64)
    ensures crc == Widened(Checksum(Low32(start), Bytes64(v)))
    ensures crc == Checksum((start & 0xffffffff) as bv32,
                     [(v & 0xff) as bv8, ((v >> 8) & 0xff) as bv8, ((v >> 16) & 0xff) as bv8, ((v >> 24) & 0xff) as bv8,
                      ((v >> 32) & 0xff) as bv8, ((v >> 40) & 0xff) as bv8, ((v >> 48) & 0xff) as bv8,
                      ((v >> 56) & 0xff) as bv8]) as bv64
  {
    hide Checksum, Low32, High32, Bytes32, Widened;
    var c := Crc32U32(Low32(start), Low32(v));
    crc := Widened(c);
    LowHalf(c);
    c := Crc32U32(Low32(crc), High32(v));
    crc := Widened(c);
    ChecksumAppend(Low32(start), Bytes32(Low32(v)), Bytes32(High32(v)));
    RegisterForm(start, v);
  }

  // ----- a message cut into words

  datatype Word = Word8(b: bv8) | Word16(h: bv16) | Word32(w: bv32) | Word64(d: bv64)

  function WordBytes(w: Word): seq<bv8> {
    match w
    case Word8(v) => [v]
    case Word16(v) => [(v & 0xff) as bv8, ((v >> 8) & 0xff) as bv8]
    case Word32(v) =>
      [(v & 0xff) as bv8, ((v >> 8) & 0xff) as bv8, ((v >> 16) & 0xff) as bv8, ((v >> 24) & 0xff) as bv8]
    case Word64(v) =>
      [(v & 0xff) as bv8, ((v >> 8) & 0xff) as bv8, ((v >> 16) & 0xff) as bv8, ((v >> 24) & 0xff) as bv8,
       ((v >> 32) & 0xff) as bv8, ((v >> 40) & 0xff) as bv8, ((v >> 48) & 0xff) as bv8, ((v >> 56) & 0xff) as bv8]
  }

  function Message(words: seq<Word>): seq<bv8> {
    if words == [] then [] else Message(words[..|words| - 1]) + WordBytes(words[|words| - 1])
  }

  /** Words follow each other in the message. */
  lemma {:induction false} MessageAppend(a: seq<Word>, b: seq<Word>)
    ensures Message(a + b) == Message(a) + Message(b)
    ensures |b| == 1 ==> Message(b) == WordBytes(b[0])
    decreases |b|
  {
    hide WordBytes;
    if b == [] {
      assert a + b == a;
    } else {
      assert (a + b)[..|a + b| - 1] == a + b[..|b| - 1];
      MessageAppend(a, b[..|b| - 1]);
    }
  }

  method Crc32Word(start: bv32, w: Word) returns (crc: bv32)
    ensures crc == Checksum(start, WordBytes(w))
  {
    hide Checksum, Bytes16, Bytes32, Bytes64, Low32, Widened;
    match w
    case Word8(v) => crc := Crc32U8(start, v);
    case Word16(v) => crc := Crc32U16(start, v);
    case Word32(v) => crc := Crc32U32(start, v);
    case Word64(v) =>
      WordBytesAt(0, 0, v);
      var c := Crc32U64(Widened(start), v);
      LowHalf(start);
      LowHalf(Checksum(start, Bytes64(v)));
      crc := Low32(c);
  }

  /** However a message is cut into words, the intrinsics compute its checksum. */
  method Crc32Words(start: bv32, words: seq<Word>) returns (crc: bv32)
    ensures crc == Checksum(start, Message(words))
  {
    hide Checksum, WordBytes;
    crc := start;
    ChecksumEmpty(start);
    for i := 0 to |words|
      invariant crc == Checksum(start, Message(words[..i]))
    {
      assert words[..i + 1][..i] == words[..i];
      ChecksumAppend(start, Message(words[..i]), WordBytes(words[i]));
      crc := Crc32Word(crc, words[i]);
    }
    assert words[..|words|] == words;
  }

  lemma ChecksumEmpty(crc: bv32)
    ensures Checksum(crc, []) == crc
  {
  }

  // ----- the check value

  lemma DigitStepsA()
    ensures Shift4(Shift4(Plus(0xffffffff, 0x31))) == 0x6f0a661c
    ensures Shift4(Shift4(Plus(0x6f0a661c, 0x32))) == 0x8caa3b9f
    ensures Shift4(Shift4(Plus(0x8caa3b9f, 0x33))) == 0xef84d04d
  {
  }

  lemma DigitStepsB()
    ensures Shift4(Shift4(Plus(0xef84d04d, 0x34))) == 0x09c50b11
    ensures Shift4(Shift4(Plus(0x09c50b11, 0x35))) == 0xe72edcca
    ensures Shift4(Shift4(Plus(0xe72edcca, 0x36))) == 0xbeca8e79
  {
  }

  lemma DigitStepsC()
    ensures Shift4(Shift4(Plus(0xbeca8e79, 0x37))) == 0xedbd6815
    ensures Shift4(Shift4(Plus(0xedbd6815, 0x38))) == 0x9f787f65
    ensures Shift4(Shift4(Plus(0x9f787f65, 0x39))) == 0x1cf96d7c
  {
  }

  lemma DigitFed(crc: bv32, digit: bv8, before: seq<bv8>, after: bv32)
    requires Checksum(0xffffffff, before) == crc && Shift4(Shift4(Plus(crc, digit as bv32))) == after
    ensures Checksum(0xffffffff, before + [digit]) == after
  {
    hide Checksum, Shift4, Plus;
    ChecksumAppend(0xffffffff, before, [digit]);
    ChecksumByte(crc, digit);
  }

  /** The digits 1 to 9 in ASCII have the CRC-32C that catalogues of checksums list for them. */
  lemma CheckValue()
    ensures Checksum(0xffffffff, [0x31, 0x32, 0x33, 0x34, 0x35, 0x36, 0x37, 0x38, 0x39]) ^ 0xffffffff == 0xe3069283
  {
    hide Checksum, Shift4, Plus;
    var digits: seq<bv8> := [0x31, 0x32, 0x33, 0x34, 0x35, 0x36, 0x37, 0x38, 0x39];
    DigitStepsA();
    DigitStepsB();
    DigitStepsC();
    assert digits[..0] == [];
    ChecksumEmpty(0xffffffff);
    DigitFed(0xffffffff, 0x31, digits[..0], 0x6f0a661c);
    assert digits[..1] == digits[..0] + [0x31];
    DigitFed(0x6f0a661c, 0x32, digits[..1], 0x8caa3b9f);
    assert digits[..2] == digits[..1] + [0x32];
    DigitFed(0x8caa3b9f, 0x33, digits[..2], 0xef84d04d);
    assert digits[..3] == digits[..2] + [0x33];
    DigitFed(0xef84d04d, 0x34, digits[..3], 0x09c50b11);
    assert digits[..4] == digits[..3] + [0x34];
    DigitFed(0x09c50b11, 0x35, digits[..4], 0xe72edcca);
    assert digits[..5] == digits[..4] + [0x35];
    DigitFed(0xe72edcca, 0x36, digits[..5], 0xbeca8e79);
    assert digits[..6] == digits[..5] + [0x36];
    DigitFed(0xbeca8e79, 0x37, digits[..6], 0xedbd6815);
    assert digits[..7] == digits[..6] + [0x37];
    DigitFed(0xedbd6815, 0x38, digits[..7], 0x9f787f65);
    assert digits[..8] == digits[..7] + [0x38];
    DigitFed(0x9f787f65, 0x39, digits[..8], 0x1cf96d7c);
    assert digits[..9] == digits[..8] + [0x39];
    assert digits[..9] == digits;
  }

  // ----- what the checksum detects

  predicate NoNibble(w: bv32) { w & 0x0f == 0 }

  lemma NoNibbleBits(w: bv32)
    requires NoNibble(w)
    ensures !Low(w) && !Low(Drop(w)) && !Low(Drop(Drop(w))) && !Low(Drop(Drop(Drop(w))))
  {
  }

  lemma Shift4OfUpper(w: bv32)
    requires NoNibble(w)
    ensures Shift4(w) == Drop4(w)
  {
    hide Low, Drop, NoNibble;
    NoNibbleBits(w);
  }

  function LowByte(c: bv32): bv8 { (c & 0xff) as bv8 }
  function DropByte(c: bv32): bv32 { c >> 8 }

  function WithoutByte(c: bv32): bv32 { c & 0xffffff00 }

  lemma ClearedByte(c: bv32)
    ensures Plus(c, LowByte(c) as bv32) == WithoutByte(c)
  {
  }

  lemma ClearedNibbles(c: bv32)
    ensures NoNibble(WithoutByte(c)) && NoNibble(Drop4(WithoutByte(c)))
  {
  }

  lemma DropsByte(c: bv32)
    ensures Drop4(Drop4(WithoutByte(c))) == DropByte(c)
  {
  }

  /** Feeding the register its own lowest byte moves the others down. */
  lemma ByteCancels(c: bv32)
    ensures Checksum(c, [LowByte(c)]) == DropByte(c)
  {
    hide Plus, NoNibble, WithoutByte, Drop4, Shift4, Checksum, LowByte, DropByte;
    ChecksumByte(c, LowByte(c));
    ClearedByte(c);
    ClearedNibbles(c);
    Shift4OfUpper(WithoutByte(c));
    Shift4OfUpper(Drop4(WithoutByte(c)));
    DropsByte(c);
  }

  lemma BytesOfRegister(c: bv32)
    ensures Low8(Low16(c)) == LowByte(c)
    ensures High8(Low16(c)) == LowByte(DropByte(c))
    ensures Low8(High16(c)) == LowByte(DropByte(DropByte(c)))
    ensures High8(High16(c)) == LowByte(DropByte(DropByte(DropByte(c))))
    ensures DropByte(DropByte(DropByte(DropByte(c)))) == 0
  {
  }

  lemma FourBytes(c: bv32, b0: bv8, b1: bv8, b2: bv8, b3: bv8)
    ensures Checksum(c, ([b0] + [b1]) + ([b2] + [b3]))
         == Checksum(Checksum(Checksum(Checksum(c, [b0]), [b1]), [b2]), [b3])
  {
    hide Checksum;
    ChecksumAppend(c, [b0] + [b1], [b2] + [b3]);
    ChecksumAppend(c, [b0], [b1]);
    ChecksumAppend(Checksum(c, [b0] + [b1]), [b2], [b3]);
  }

  /** A message followed by its own checksum, lowest byte first, leaves the register empty. */
  lemma OwnChecksumCancels(crc: bv32, message: seq<bv8>)
    ensures Checksum(crc, message + Bytes32(Checksum(crc, message))) == 0
  {
    hide Checksum, Low8, High8, Low16, High16, LowByte, DropByte;
    var c := Checksum(crc, message);
    ChecksumAppend(crc, message, Bytes32(c));
    BytesOfRegister(c);
    FourBytes(c, Low8(Low16(c)), High8(Low16(c)), Low8(High16(c)), High8(High16(c)));
    ByteCancels(c);
    ByteCancels(DropByte(c));
    ByteCancels(DropByte(DropByte(c)));
    ByteCancels(DropByte(DropByte(DropByte(c))));
  }
}
