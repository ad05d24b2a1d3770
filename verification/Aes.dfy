/**
 The software fallback of the AES round intrinsics against the rounds of FIPS 197, and the round
 trip through encryption and decryption.
 */
module Aes {

  // ----- the field of section 4 of FIPS 197

  function Add(a: bv8, b: bv8): bv8 { a ^ b }

  predicate High(b: bv8) { b & 0x80 != 0 }

  function Raise(b: bv8): bv8 { b << 1 }

  function XTime(b: bv8): bv8 {
    if High(b) then Add(Raise(b), 0x1b) else Raise(b)
  }

  function Term(a: bv8, bit: bv8, x: bv8): bv8 {
    if a & bit != 0 then x else 0
  }

  /** The product of `a` and `x`: the sum of the multiples of `x` that the bits of `a` select. */
  function Times(a: bv8, x: bv8): bv8 {
    var x1 := XTime(x);
    var x2 := XTime(x1);
    var x3 := XTime(x2);
    var x4 := XTime(x3);
    var x5 := XTime(x4);
    var x6 := XTime(x5);
    var x7 := XTime(x6);
    Add(Term(a, 0x01, x), Add(Term(a, 0x02, x1), Add(Term(a, 0x04, x2), Add(Term(a, 0x08, x3),
    Add(Term(a, 0x10, x4), Add(Term(a, 0x20, x5), Add(Term(a, 0x40, x6), Term(a, 0x80, x7))))))))
  }

  lemma AddAssociates(a: bv8, b: bv8, c: bv8)
    ensures Add(Add(a, b), c) == Add(a, Add(b, c))
  {
  }

  lemma AddCommutes(a: bv8, b: bv8)
    ensures Add(a, b) == Add(b, a)
  {
  }

  lemma AddZero()
    ensures forall x: bv8 {:trigger Add(x, 0)} :: Add(x, 0) == x
    ensures forall x: bv8 {:trigger Add(0, x)} :: Add(0, x) == x
  {
  }

  lemma AddRegroups(a: bv8, b: bv8, c: bv8, d: bv8)
    ensures Add(Add(a, b), Add(c, d)) == Add(Add(a, c), Add(b, d))
  {
    hide Add;
    AddAssociates(a, b, Add(c, d));
    AddAssociates(b, c, d);
    AddCommutes(b, c);
    AddAssociates(c, b, d);
    AddAssociates(a, c, Add(b, d));
  }

  lemma HighAdds(x: bv8, y: bv8)
    ensures High(Add(x, y)) == (High(x) != High(y))
  {
  }

  lemma RaiseAdds(x: bv8, y: bv8)
    ensures Raise(Add(x, y)) == Add(Raise(x), Raise(y))
  {
  }

  lemma AddSelf(a: bv8)
    ensures Add(a, a) == 0
  {
  }

  lemma XTimeAdds(x: bv8, y: bv8)
    ensures XTime(Add(x, y)) == Add(XTime(x), XTime(y))
  {
    hide Add, High, Raise;
    HighAdds(x, y);
    RaiseAdds(x, y);
    AddZero();
    AddSelf(0x1b);
    AddRegroups(Raise(x), 0x1b, Raise(y), 0x1b);
    AddRegroups(Raise(x), 0x1b, Raise(y), 0);
    AddRegroups(Raise(x), 0, Raise(y), 0x1b);
  }

  lemma TermAdds(a: bv8, b: bv8, x: bv8, y: bv8)
    ensures Term(a, b, Add(x, y)) == Add(Term(a, b, x), Term(a, b, y))
  {
    hide Add;
    AddZero();
  }

  lemma TimesAdds(a: bv8, x: bv8, y: bv8)
    ensures Times(a, Add(x, y)) == Add(Times(a, x), Times(a, y))
  {
    hide Add, Term, XTime;
    var x1, y1 := XTime(x), XTime(y);
    var x2, y2 := XTime(x1), XTime(y1);
    var x3, y3 := XTime(x2), XTime(y2);
    var x4, y4 := XTime(x3), XTime(y3);
    var x5, y5 := XTime(x4), XTime(y4);
    var x6, y6 := XTime(x5), XTime(y5);
    var x7, y7 := XTime(x6), XTime(y6);
    XTimeAdds(x, y);
    XTimeAdds(x1, y1);
    XTimeAdds(x2, y2);
    XTimeAdds(x3, y3);
    XTimeAdds(x4, y4);
    XTimeAdds(x5, y5);
    XTimeAdds(x6, y6);
    TermAdds(a, 0x80, x7, y7);
    var X6, Y6 := Term(a, 0x80, x7), Term(a, 0x80, y7);
    var X5, Y5 := TermAhead(a, 0x40, x6, y6, X6, Y6);
    var X4, Y4 := TermAhead(a, 0x20, x5, y5, X5, Y5);
    var X3, Y3 := TermAhead(a, 0x10, x4, y4, X4, Y4);
    var X2, Y2 := TermAhead(a, 0x08, x3, y3, X3, Y3);
    var X1, Y1 := TermAhead(a, 0x04, x2, y2, X2, Y2);
    var X0, Y0 := TermAhead(a, 0x02, x1, y1, X1, Y1);
    var X, Y := TermAhead(a, 0x01, x, y, X0, Y0);
  }

  lemma TermAhead(a: bv8, b: bv8, x: bv8, y: bv8, p: bv8, q: bv8) returns (p': bv8, q': bv8)
    ensures p' == Add(Term(a, b, x), p) && q' == Add(Term(a, b, y), q)
    ensures Add(Term(a, b, Add(x, y)), Add(p, q)) == Add(p', q')
  {
    hide Add, Term;
    p', q' := Add(Term(a, b, x), p), Add(Term(a, b, y), q);
    TermAdds(a, b, x, y);
    AddRegroups(Term(a, b, x), Term(a, b, y), p, q);
  }

  lemma TermAddsLeft(a: bv8, c: bv8, b: bv8, x: bv8)
    requires b == 1 || b == 2 || b == 4 || b == 8 || b == 16 || b == 32 || b == 64 || b == 128
    ensures Term(Add(a, c), b, x) == Add(Term(a, b, x), Term(c, b, x))
  {
    BitAdds(a, c, b);
    hide Add;
    AddZero();
    AddSelf(x);
  }

  lemma BitAdds(a: bv8, c: bv8, b: bv8)
    requires b == 1 || b == 2 || b == 4 || b == 8 || b == 16 || b == 32 || b == 64 || b == 128
    ensures (Add(a, c) & b != 0) == ((a & b != 0) != (c & b != 0))
  {
  }

  lemma TermAheadLeft(a: bv8, c: bv8, b: bv8, x: bv8, p: bv8, q: bv8) returns (p': bv8, q': bv8)
    requires b == 1 || b == 2 || b == 4 || b == 8 || b == 16 || b == 32 || b == 64 || b == 128
    ensures p' == Add(Term(a, b, x), p) && q' == Add(Term(c, b, x), q)
    ensures Add(Term(Add(a, c), b, x), Add(p, q)) == Add(p', q')
  {
    hide Add, Term;
    p', q' := Add(Term(a, b, x), p), Add(Term(c, b, x), q);
    TermAddsLeft(a, c, b, x);
    AddRegroups(Term(a, b, x), Term(c, b, x), p, q);
  }

  lemma TimesAddsLeft(a: bv8, c: bv8, x: bv8)
    ensures Times(Add(a, c), x) == Add(Times(a, x), Times(c, x))
  {
    hide Add, Term, XTime;
    var x1 := XTime(x);
    var x2 := XTime(x1);
    var x3 := XTime(x2);
    var x4 := XTime(x3);
    var x5 := XTime(x4);
    var x6 := XTime(x5);
    var x7 := XTime(x6);
    TermAddsLeft(a, c, 0x80, x7);
    var X6, Y6 := Term(a, 0x80, x7), Term(c, 0x80, x7);
    var X5, Y5 := TermAheadLeft(a, c, 0x40, x6, X6, Y6);
    var X4, Y4 := TermAheadLeft(a, c, 0x20, x5, X5, Y5);
    var X3, Y3 := TermAheadLeft(a, c, 0x10, x4, X4, Y4);
    var X2, Y2 := TermAheadLeft(a, c, 0x08, x3, X3, Y3);
    var X1, Y1 := TermAheadLeft(a, c, 0x04, x2, X2, Y2);
    var X0, Y0 := TermAheadLeft(a, c, 0x02, x1, X1, Y1);
    var X, Y := TermAheadLeft(a, c, 0x01, x, X0, Y0);
  }

  lemma TimesSmall(a: bv8, x: bv8)
    requires a < 32
    ensures var x1 := XTime(x);
            var x2 := XTime(x1);
            Times(a, x) == Add(Term(a, 0x01, x), Add(Term(a, 0x02, x1), Add(Term(a, 0x04, x2),
                           Add(Term(a, 0x08, XTime(x2)), Term(a, 0x10, XTime(XTime(x2)))))))
  {
    hide XTime, Add;
    assert a & 0x20 == 0 && a & 0x40 == 0 && a & 0x80 == 0;
    AddZero();
  }

  /** The products that the column transformations use. */
  lemma Products(x: bv8)
    ensures var x1 := XTime(x);
            var x3 := XTime(XTime(x1));
            && Times(1, x) == x && Times(2, x) == x1 && Times(3, x) == Add(x, x1)
            && Times(0x09, x) == Add(x, x3) && Times(0x0b, x) == Add(x, Add(x1, x3))
            && Times(0x0d, x) == Add(x, Add(XTime(x1), x3)) && Times(0x0e, x) == Add(x1, Add(XTime(x1), x3))
  {
    hide XTime, Add, Times;
    AddZero();
    TimesSmall(1, x);
    TimesSmall(2, x);
    TimesSmall(3, x);
    TimesSmall(0x09, x);
    TimesSmall(0x0b, x);
    TimesSmall(0x0d, x);
    TimesSmall(0x0e, x);
  }

  /** Doubling one factor or the other. */
  lemma TimesDoubled(a: bv8, x: bv8)
    requires a < 16
    ensures Times(a, XTime(x)) == Times(Raise(a), x)
  {
    DoubledBits(a);
    hide XTime, Add, Times, Raise;
    AddZero();
    TimesSmall(a, XTime(x));
    TimesSmall(Raise(a), x);
  }

  lemma DoubledBits(a: bv8)
    requires a < 16
    ensures Raise(a) < 32 && a & 0x10 == 0 && Raise(a) & 0x01 == 0
    ensures (a & 0x01 != 0) == (Raise(a) & 0x02 != 0)
    ensures (a & 0x02 != 0) == (Raise(a) & 0x04 != 0)
    ensures (a & 0x04 != 0) == (Raise(a) & 0x08 != 0)
    ensures (a & 0x08 != 0) == (Raise(a) & 0x10 != 0)
  {
  }

  lemma TimesTripled(a: bv8, x: bv8)
    requires a < 16
    ensures Times(a, Add(x, XTime(x))) == Times(Add(a, Raise(a)), x)
  {
    hide XTime, Add, Times, Raise;
    TimesDoubled(a, x);
    TimesAdds(a, x, XTime(x));
    TimesAddsLeft(a, Raise(a), x);
  }

  lemma TimesZero(a: bv8)
    ensures Times(a, 0) == 0
  {
    assert XTime(0) == 0;
    hide XTime;
  }

  // ----- the substitution tables

  function Sbox(x: bv8): bv8 {
    match x >> 4
    case 0 => (match x & 0x0f
      case 0 => 0x63 case 1 => 0x7c case 2 => 0x77 case 3 => 0x7b case 4 => 0xf2 case 5 => 0x6b case 6 => 0x6f case 7 => 0xc5
      case 8 => 0x30 case 9 => 0x01 case 10 => 0x67 case 11 => 0x2b case 12 => 0xfe case 13 => 0xd7 case 14 => 0xab case 15 => 0x76)
    case 1 => (match x & 0x0f
      case 0 => 0xca case 1 => 0x82 case 2 => 0xc9 case 3 => 0x7d case 4 => 0xfa case 5 => 0x59 case 6 => 0x47 case 7 => 0xf0
      case 8 => 0xad case 9 => 0xd4 case 10 => 0xa2 case 11 => 0xaf case 12 => 0x9c case 13 => 0xa4 case 14 => 0x72 case 15 => 0xc0)
    case 2 => (match x & 0x0f
      case 0 => 0xb7 case 1 => 0xfd case 2 => 0x93 case 3 => 0x26 case 4 => 0x36 case 5 => 0x3f case 6 => 0xf7 case 7 => 0xcc
      case 8 => 0x34 case 9 => 0xa5 case 10 => 0xe5 case 11 => 0xf1 case 12 => 0x71 case 13 => 0xd8 case 14 => 0x31 case 15 => 0x15)
    case 3 => (match x & 0x0f
      case 0 => 0x04 case 1 => 0xc7 case 2 => 0x23 case 3 => 0xc3 case 4 => 0x18 case 5 => 0x96 case 6 => 0x05 case 7 => 0x9a
      case 8 => 0x07 case 9 => 0x12 case 10 => 0x80 case 11 => 0xe2 case 12 => 0xeb case 13 => 0x27 case 14 => 0xb2 case 15 => 0x75)
    case 4 => (match x & 0x0f
      case 0 => 0x09 case 1 => 0x83 case 2 => 0x2c case 3 => 0x1a case 4 => 0x1b case 5 => 0x6e case 6 => 0x5a case 7 => 0xa0
      case 8 => 0x52 case 9 => 0x3b case 10 => 0xd6 case 11 => 0xb3 case 12 => 0x29 case 13 => 0xe3 case 14 => 0x2f case 15 => 0x84)
    case 5 => (match x & 0x0f
      case 0 => 0x53 case 1 => 0xd1 case 2 => 0x00 case 3 => 0xed case 4 => 0x20 case 5 => 0xfc case 6 => 0xb1 case 7 => 0x5b
      case 8 => 0x6a case 9 => 0xcb case 10 => 0xbe case 11 => 0x39 case 12 => 0x4a case 13 => 0x4c case 14 => 0x58 case 15 => 0xcf)
    case 6 => (match x & 0x0f
      case 0 => 0xd0 case 1 => 0xef case 2 => 0xaa case 3 => 0xfb case 4 => 0x43 case 5 => 0x4d case 6 => 0x33 case 7 => 0x85
      case 8 => 0x45 case 9 => 0xf9 case 10 => 0x02 case 11 => 0x7f case 12 => 0x50 case 13 => 0x3c case 14 => 0x9f case 15 => 0xa8)
    case 7 => (match x & 0x0f
      case 0 => 0x51 case 1 => 0xa3 case 2 => 0x40 case 3 => 0x8f case 4 => 0x92 case 5 => 0x9d case 6 => 0x38 case 7 => 0xf5
      case 8 => 0xbc case 9 => 0xb6 case 10 => 0xda case 11 => 0x21 case 12 => 0x10 case 13 => 0xff case 14 => 0xf3 case 15 => 0xd2)
    case 8 => (match x & 0x0f
      case 0 => 0xcd case 1 => 0x0c case 2 => 0x13 case 3 => 0xec case 4 => 0x5f case 5 => 0x97 case 6 => 0x44 case 7 => 0x17
      case 8 => 0xc4 case 9 => 0xa7 case 10 => 0x7e case 11 => 0x3d case 12 => 0x64 case 13 => 0x5d case 14 => 0x19 case 15 => 0x73)
    case 9 => (match x & 0x0f
      case 0 => 0x60 case 1 => 0x81 case 2 => 0x4f case 3 => 0xdc case 4 => 0x22 case 5 => 0x2a case 6 => 0x90 case 7 => 0x88
      case 8 => 0x46 case 9 => 0xee case 10 => 0xb8 case 11 => 0x14 case 12 => 0xde case 13 => 0x5e case 14 => 0x0b case 15 => 0xdb)
    case 10 => (match x & 0x0f
      case 0 => 0xe0 case 1 => 0x32 case 2 => 0x3a case 3 => 0x0a case 4 => 0x49 case 5 => 0x06 case 6 => 0x24 case 7 => 0x5c
      case 8 => 0xc2 case 9 => 0xd3 case 10 => 0xac case 11 => 0x62 case 12 => 0x91 case 13 => 0x95 case 14 => 0xe4 case 15 => 0x79)
    case 11 => (match x & 0x0f
      case 0 => 0xe7 case 1 => 0xc8 case 2 => 0x37 case 3 => 0x6d case 4 => 0x8d case 5 => 0xd5 case 6 => 0x4e case 7 => 0xa9
      case 8 => 0x6c case 9 => 0x56 case 10 => 0xf4 case 11 => 0xea case 12 => 0x65 case 13 => 0x7a case 14 => 0xae case 15 => 0x08)
    case 12 => (match x & 0x0f
      case 0 => 0xba case 1 => 0x78 case 2 => 0x25 case 3 => 0x2e case 4 => 0x1c case 5 => 0xa6 case 6 => 0xb4 case 7 => 0xc6
      case 8 => 0xe8 case 9 => 0xdd case 10 => 0x74 case 11 => 0x1f case 12 => 0x4b case 13 => 0xbd case 14 => 0x8b case 15 => 0x8a)
    case 13 => (match x & 0x0f
      case 0 => 0x70 case 1 => 0x3e case 2 => 0xb5 case 3 => 0x66 case 4 => 0x48 case 5 => 0x03 case 6 => 0xf6 case 7 => 0x0e
      case 8 => 0x61 case 9 => 0x35 case 10 => 0x57 case 11 => 0xb9 case 12 => 0x86 case 13 => 0xc1 case 14 => 0x1d case 15 => 0x9e)
    case 14 => (match x & 0x0f
      case 0 => 0xe1 case 1 => 0xf8 case 2 => 0x98 case 3 => 0x11 case 4 => 0x69 case 5 => 0xd9 case 6 => 0x8e case 7 => 0x94
      case 8 => 0x9b case 9 => 0x1e case 10 => 0x87 case 11 => 0xe9 case 12 => 0xce case 13 => 0x55 case 14 => 0x28 case 15 => 0xdf)
    case 15 => (match x & 0x0f
      case 0 => 0x8c case 1 => 0xa1 case 2 => 0x89 case 3 => 0x0d case 4 => 0xbf case 5 => 0xe6 case 6 => 0x42 case 7 => 0x68
      case 8 => 0x41 case 9 => 0x99 case 10 => 0x2d case 11 => 0x0f case 12 => 0xb0 case 13 => 0x54 case 14 => 0xbb case 15 => 0x16)
  }

  function RSbox(x: bv8): bv8 {
    match x >> 4
    case 0 => (match x & 0x0f
      case 0 => 0x52 case 1 => 0x09 case 2 => 0x6a case 3 => 0xd5 case 4 => 0x30 case 5 => 0x36 case 6 => 0xa5 case 7 => 0x38
      case 8 => 0xbf case 9 => 0x40 case 10 => 0xa3 case 11 => 0x9e case 12 => 0x81 case 13 => 0xf3 case 14 => 0xd7 case 15 => 0xfb)
    case 1 => (match x & 0x0f
      case 0 => 0x7c case 1 => 0xe3 case 2 => 0x39 case 3 => 0x82 case 4 => 0x9b case 5 => 0x2f case 6 => 0xff case 7 => 0x87
      case 8 => 0x34 case 9 => 0x8e case 10 => 0x43 case 11 => 0x44 case 12 => 0xc4 case 13 => 0xde case 14 => 0xe9 case 15 => 0xcb)
    case 2 => (match x & 0x0f
      case 0 => 0x54 case 1 => 0x7b case 2 => 0x94 case 3 => 0x32 case 4 => 0xa6 case 5 => 0xc2 case 6 => 0x23 case 7 => 0x3d
      case 8 => 0xee case 9 => 0x4c case 10 => 0x95 case 11 => 0x0b case 12 => 0x42 case 13 => 0xfa case 14 => 0xc3 case 15 => 0x4e)
    case 3 => (match x & 0x0f
      case 0 => 0x08 case 1 => 0x2e case 2 => 0xa1 case 3 => 0x66 case 4 => 0x28 case 5 => 0xd9 case 6 => 0x24 case 7 => 0xb2
      case 8 => 0x76 case 9 => 0x5b case 10 => 0xa2 case 11 => 0x49 case 12 => 0x6d case 13 => 0x8b case 14 => 0xd1 case 15 => 0x25)
    case 4 => (match x & 0x0f
      case 0 => 0x72 case 1 => 0xf8 case 2 => 0xf6 case 3 => 0x64 case 4 => 0x86 case 5 => 0x68 case 6 => 0x98 case 7 => 0x16
      case 8 => 0xd4 case 9 => 0xa4 case 10 => 0x5c case 11 => 0xcc case 12 => 0x5d case 13 => 0x65 case 14 => 0xb6 case 15 => 0x92)
    case 5 => (match x & 0x0f
      case 0 => 0x6c case 1 => 0x70 case 2 => 0x48 case 3 => 0x50 case 4 => 0xfd case 5 => 0xed case 6 => 0xb9 case 7 => 0xda
      case 8 => 0x5e case 9 => 0x15 case 10 => 0x46 case 11 => 0x57 case 12 => 0xa7 case 13 => 0x8d case 14 => 0x9d case 15 => 0x84)
    case 6 => (match x & 0x0f
      case 0 => 0x90 case 1 => 0xd8 case 2 => 0xab case 3 => 0x00 case 4 => 0x8c case 5 => 0xbc case 6 => 0xd3 case 7 => 0x0a
      case 8 => 0xf7 case 9 => 0xe4 case 10 => 0x58 case 11 => 0x05 case 12 => 0xb8 case 13 => 0xb3 case 14 => 0x45 case 15 => 0x06)
    case 7 => (match x & 0x0f
      case 0 => 0xd0 case 1 => 0x2c case 2 => 0x1e case 3 => 0x8f case 4 => 0xca case 5 => 0x3f case 6 => 0x0f case 7 => 0x02
      case 8 => 0xc1 case 9 => 0xaf case 10 => 0xbd case 11 => 0x03 case 12 => 0x01 case 13 => 0x13 case 14 => 0x8a case 15 => 0x6b)
    case 8 => (match x & 0x0f
      case 0 => 0x3a case 1 => 0x91 case 2 => 0x11 case 3 => 0x41 case 4 => 0x4f case 5 => 0x67 case 6 => 0xdc case 7 => 0xea
      case 8 => 0x97 case 9 => 0xf2 case 10 => 0xcf case 11 => 0xce case 12 => 0xf0 case 13 => 0xb4 case 14 => 0xe6 case 15 => 0x73)
    case 9 => (match x & 0x0f
      case 0 => 0x96 case 1 => 0xac case 2 => 0x74 case 3 => 0x22 case 4 => 0xe7 case 5 => 0xad case 6 => 0x35 case 7 => 0x85
      case 8 => 0xe2 case 9 => 0xf9 case 10 => 0x37 case 11 => 0xe8 case 12 => 0x1c case 13 => 0x75 case 14 => 0xdf case 15 => 0x6e)
    case 10 => (match x & 0x0f
      case 0 => 0x47 case 1 => 0xf1 case 2 => 0x1a case 3 => 0x71 case 4 => 0x1d case 5 => 0x29 case 6 => 0xc5 case 7 => 0x89
      case 8 => 0x6f case 9 => 0xb7 case 10 => 0x62 case 11 => 0x0e case 12 => 0xaa case 13 => 0x18 case 14 => 0xbe case 15 => 0x1b)
    case 11 => (match x & 0x0f
      case 0 => 0xfc case 1 => 0x56 case 2 => 0x3e case 3 => 0x4b case 4 => 0xc6 case 5 => 0xd2 case 6 => 0x79 case 7 => 0x20
      case 8 => 0x9a case 9 => 0xdb case 10 => 0xc0 case 11 => 0xfe case 12 => 0x78 case 13 => 0xcd case 14 => 0x5a case 15 => 0xf4)
    case 12 => (match x & 0x0f
      case 0 => 0x1f case 1 => 0xdd case 2 => 0xa8 case 3 => 0x33 case 4 => 0x88 case 5 => 0x07 case 6 => 0xc7 case 7 => 0x31
      case 8 => 0xb1 case 9 => 0x12 case 10 => 0x10 case 11 => 0x59 case 12 => 0x27 case 13 => 0x80 case 14 => 0xec case 15 => 0x5f)
    case 13 => (match x & 0x0f
      case 0 => 0x60 case 1 => 0x51 case 2 => 0x7f case 3 => 0xa9 case 4 => 0x19 case 5 => 0xb5 case 6 => 0x4a case 7 => 0x0d
      case 8 => 0x2d case 9 => 0xe5 case 10 => 0x7a case 11 => 0x9f case 12 => 0x93 case 13 => 0xc9 case 14 => 0x9c case 15 => 0xef)
    case 14 => (match x & 0x0f
      case 0 => 0xa0 case 1 => 0xe0 case 2 => 0x3b case 3 => 0x4d case 4 => 0xae case 5 => 0x2a case 6 => 0xf5 case 7 => 0xb0
      case 8 => 0xc8 case 9 => 0xeb case 10 => 0xbb case 11 => 0x3c case 12 => 0x83 case 13 => 0x53 case 14 => 0x99 case 15 => 0x61)
    case 15 => (match x & 0x0f
      case 0 => 0x17 case 1 => 0x2b case 2 => 0x04 case 3 => 0x7e case 4 => 0xba case 5 => 0x77 case 6 => 0xd6 case 7 => 0x26
      case 8 => 0xe1 case 9 => 0x69 case 10 => 0x14 case 11 => 0x63 case 12 => 0x55 case 13 => 0x21 case 14 => 0x0c case 15 => 0x7d)
  }

  lemma SboxUndone(x: bv8)
    ensures RSbox(Sbox(x)) == x
  {
  }

  lemma RSboxUndone(x: bv8)
    ensures Sbox(RSbox(x)) == x
  {
  }

  /** The two tables are inverse to each other. */
  lemma SboxInverse(x: bv8)
    ensures RSbox(Sbox(x)) == x && Sbox(RSbox(x)) == x
  {
    hide Sbox, RSbox;
    SboxUndone(x);
    RSboxUndone(x);
  }

  function Rotate(x: bv8, k: bv8): bv8
    requires k < 8
  {
    (x << k) | (x >> (8 - k))
  }

  /** The affine transformation of section 5.1.1 of FIPS 197 and its inverse. */
  function Affine(x: bv8): bv8 {
    x ^ Rotate(x, 1) ^ Rotate(x, 2) ^ Rotate(x, 3) ^ Rotate(x, 4) ^ 0x63
  }

  function UndoAffine(x: bv8): bv8 {
    Rotate(x, 1) ^ Rotate(x, 3) ^ Rotate(x, 6) ^ 0x05
  }

  lemma AffineOnto(x: bv8)
    ensures Affine(UndoAffine(x)) == x
  {
  }

  lemma UndoneFirst(x: bv8)
    requires x < 0x40
    ensures Times(x, UndoAffine(Sbox(x))) == if x == 0 then 0 else 1
    ensures x == 0 ==> UndoAffine(Sbox(x)) == 0
  {
  }

  lemma UndoneSecond(x: bv8)
    requires x >= 0x40 && x < 0x80
    ensures Times(x, UndoAffine(Sbox(x))) == if x == 0 then 0 else 1
    ensures x == 0 ==> UndoAffine(Sbox(x)) == 0
  {
  }

  lemma UndoneThird(x: bv8)
    requires x >= 0x80 && x < 0xc0
    ensures Times(x, UndoAffine(Sbox(x))) == if x == 0 then 0 else 1
    ensures x == 0 ==> UndoAffine(Sbox(x)) == 0
  {
  }

  lemma UndoneFourth(x: bv8)
    requires x >= 0xc0
    ensures Times(x, UndoAffine(Sbox(x))) == if x == 0 then 0 else 1
    ensures x == 0 ==> UndoAffine(Sbox(x)) == 0
  {
  }

  lemma UndoneIsInverse(x: bv8)
    ensures Times(x, UndoAffine(Sbox(x))) == if x == 0 then 0 else 1
    ensures x == 0 ==> UndoAffine(Sbox(x)) == 0
  {
    hide Times, UndoAffine, Sbox;
    if x < 0x40 {
      UndoneFirst(x);
    } else if x < 0x80 {
      UndoneSecond(x);
    } else if x < 0xc0 {
      UndoneThird(x);
    } else {
      UndoneFourth(x);
    }
  }

  /** Every entry is the affine transformation of the multiplicative inverse, as the standard
      defines the substitution. */
  lemma SboxIsStandard(x: bv8) returns (inverse: bv8)
    ensures Sbox(x) == Affine(inverse)
    ensures if x == 0 then inverse == 0 else Times(x, inverse) == 1
  {
    hide Sbox, Times, Affine, UndoAffine;
    inverse := UndoAffine(Sbox(x));
    AffineOnto(Sbox(x));
    UndoneIsInverse(x);
  }

  // ----- columns, section 5.1.3

  datatype Column = Column(r0: bv8, r1: bv8, r2: bv8, r3: bv8)

  function Dot(a: bv8, b: bv8, c: bv8, d: bv8, x: Column): bv8 {
    Add(Add(Times(a, x.r0), Times(b, x.r1)), Add(Times(c, x.r2), Times(d, x.r3)))
  }

  function MixColumn(x: Column): Column {
    Column(Dot(2, 3, 1, 1, x), Dot(1, 2, 3, 1, x), Dot(1, 1, 2, 3, x), Dot(3, 1, 1, 2, x))
  }

  function InvMixColumn(x: Column): Column {
    Column(Dot(0x0e, 0x0b, 0x0d, 0x09, x), Dot(0x09, 0x0e, 0x0b, 0x0d, x),
           Dot(0x0d, 0x09, 0x0e, 0x0b, x), Dot(0x0b, 0x0d, 0x09, 0x0e, x))
  }

  function AddColumn(x: Column, y: Column): Column {
    Column(Add(x.r0, y.r0), Add(x.r1, y.r1), Add(x.r2, y.r2), Add(x.r3, y.r3))
  }

  lemma DotAdds(a: bv8, b: bv8, c: bv8, d: bv8, x: Column, y: Column)
    ensures Dot(a, b, c, d, AddColumn(x, y)) == Add(Dot(a, b, c, d, x), Dot(a, b, c, d, y))
  {
    hide Add, Times;
    TimesAdds(a, x.r0, y.r0);
    TimesAdds(b, x.r1, y.r1);
    TimesAdds(c, x.r2, y.r2);
    TimesAdds(d, x.r3, y.r3);
    AddRegroups(Times(a, x.r0), Times(a, y.r0), Times(b, x.r1), Times(b, y.r1));
    AddRegroups(Times(c, x.r2), Times(c, y.r2), Times(d, x.r3), Times(d, y.r3));
    AddRegroups(Add(Times(a, x.r0), Times(b, x.r1)), Add(Times(a, y.r0), Times(b, y.r1)),
                Add(Times(c, x.r2), Times(d, x.r3)), Add(Times(c, y.r2), Times(d, y.r3)));
  }

  lemma InvMixAdds(x: Column, y: Column)
    ensures InvMixColumn(AddColumn(x, y)) == AddColumn(InvMixColumn(x), InvMixColumn(y))
  {
    hide Dot, Add;
    DotAdds(0x0e, 0x0b, 0x0d, 0x09, x, y);
    DotAdds(0x09, 0x0e, 0x0b, 0x0d, x, y);
    DotAdds(0x0d, 0x09, 0x0e, 0x0b, x, y);
    DotAdds(0x0b, 0x0d, 0x09, 0x0e, x, y);
  }

  /** Products with 2b, b, b and 3b add up to one product with b. */
  lemma UnMixDot(p: bv8, q: bv8, r: bv8, s: bv8, b: bv8)
    requires p < 16 && s < 16
    ensures Dot(p, q, r, s, Column(Times(2, b), b, b, Times(3, b)))
         == Times(Add(Add(Raise(p), q), Add(r, Add(s, Raise(s)))), b)
  {
    hide XTime, Times, Add, Raise;
    Products(b);
    TimesDoubled(p, b);
    TimesTripled(s, b);
    TimesAddsLeft(Raise(p), q, b);
    TimesAddsLeft(r, Add(s, Raise(s)), b);
    TimesAddsLeft(Add(Raise(p), q), Add(r, Add(s, Raise(s))), b);
  }

  lemma UnMixFactors()
    ensures Add(Add(Raise(0x0e), 0x0b), Add(0x0d, Add(0x09, Raise(0x09)))) == 1
    ensures Add(Add(Raise(0x09), 0x0e), Add(0x0b, Add(0x0d, Raise(0x0d)))) == 0
    ensures Add(Add(Raise(0x0d), 0x09), Add(0x0e, Add(0x0b, Raise(0x0b)))) == 0
    ensures Add(Add(Raise(0x0b), 0x0d), Add(0x09, Add(0x0e, Raise(0x0e)))) == 0
  {
  }

  lemma UnMixProducts(b: bv8)
    ensures InvMixColumn(Column(Times(2, b), b, b, Times(3, b))) == Column(b, 0, 0, 0)
  {
    UnMixFactors();
    hide Times, Add, Raise, Dot;
    UnMixDot(0x0e, 0x0b, 0x0d, 0x09, b);
    UnMixDot(0x09, 0x0e, 0x0b, 0x0d, b);
    UnMixDot(0x0d, 0x09, 0x0e, 0x0b, b);
    UnMixDot(0x0b, 0x0d, 0x09, 0x0e, b);
    Products(b);
    ZeroTimes(b);
  }

  lemma ZeroTimes(x: bv8)
    ensures Times(0, x) == 0
  {
    hide XTime, Add, Times;
    TimesSmall(0, x);
    AddZero();
  }

  lemma UnMixTop(b: bv8)
    ensures InvMixColumn(MixColumn(Column(b, 0, 0, 0))) == Column(b, 0, 0, 0)
  {
    hide Times, Add, InvMixColumn;
    Products(b);
    TimesZero(1);
    TimesZero(2);
    TimesZero(3);
    AddZero();
    UnMixProducts(b);
  }

  /** Both transformations treat the four rows alike. */
  function Turn(x: Column): Column {
    Column(x.r3, x.r0, x.r1, x.r2)
  }

  lemma DotTurns(a: bv8, b: bv8, c: bv8, d: bv8, x: Column)
    ensures Dot(d, a, b, c, Turn(x)) == Dot(a, b, c, d, x)
  {
    hide Times, Add;
    AddTurns(Times(a, x.r0), Times(b, x.r1), Times(c, x.r2), Times(d, x.r3));
  }

  lemma AddTurns(a: bv8, b: bv8, c: bv8, d: bv8)
    ensures Add(Add(d, a), Add(b, c)) == Add(Add(a, b), Add(c, d))
  {
    hide Add;
    AddAssociates(d, a, Add(b, c));
    AddCommutes(d, Add(a, Add(b, c)));
    AddAssociates(a, b, c);
    AddAssociates(Add(a, b), c, d);
  }

  lemma MixTurns(x: Column)
    ensures MixColumn(Turn(x)) == Turn(MixColumn(x))
    ensures InvMixColumn(Turn(x)) == Turn(InvMixColumn(x))
  {
    DotTurns(2, 3, 1, 1, x);
    DotTurns(1, 2, 3, 1, x);
    DotTurns(1, 1, 2, 3, x);
    DotTurns(3, 1, 1, 2, x);
    DotTurns(0x0e, 0x0b, 0x0d, 0x09, x);
    DotTurns(0x09, 0x0e, 0x0b, 0x0d, x);
    DotTurns(0x0d, 0x09, 0x0e, 0x0b, x);
    DotTurns(0x0b, 0x0d, 0x09, 0x0e, x);
    hide Dot;
  }

  lemma UnMixTurned(x: Column)
    requires InvMixColumn(MixColumn(x)) == x
    ensures InvMixColumn(MixColumn(Turn(x))) == Turn(x)
  {
    hide MixColumn, InvMixColumn, Turn;
    MixTurns(x);
    MixTurns(MixColumn(x));
  }

  lemma MixAdds(x: Column, y: Column)
    ensures MixColumn(AddColumn(x, y)) == AddColumn(MixColumn(x), MixColumn(y))
  {
    hide Dot, Add;
    DotAdds(2, 3, 1, 1, x, y);
    DotAdds(1, 2, 3, 1, x, y);
    DotAdds(1, 1, 2, 3, x, y);
    DotAdds(3, 1, 1, 2, x, y);
  }

  lemma UnMixAdds(x: Column, y: Column)
    requires InvMixColumn(MixColumn(x)) == x && InvMixColumn(MixColumn(y)) == y
    ensures InvMixColumn(MixColumn(AddColumn(x, y))) == AddColumn(x, y)
  {
    hide MixColumn, InvMixColumn, AddColumn;
    MixAdds(x, y);
    InvMixAdds(MixColumn(x), MixColumn(y));
  }

  /** InvMixColumns undoes MixColumns. */
  lemma UnMix(x: Column)
    ensures InvMixColumn(MixColumn(x)) == x
  {
    var c0, c1, c2, c3 := Column(x.r0, 0, 0, 0), Column(x.r1, 0, 0, 0), Column(x.r2, 0, 0, 0), Column(x.r3, 0, 0, 0);
    var d2, d3 := Turn(c2), Turn(Turn(c3));
    assert x == AddColumn(AddColumn(c0, Turn(c1)), AddColumn(Turn(d2), Turn(d3))) by {
      AddZero();
      hide Add;
    }
    hide MixColumn, InvMixColumn, AddColumn, Turn;
    UnMixTop(x.r0);
    UnMixTop(x.r1);
    UnMixTop(x.r2);
    UnMixTop(x.r3);
    UnMixTurned(c1);
    UnMixTurned(c2);
    UnMixTurned(d2);
    UnMixTurned(c3);
    UnMixTurned(Turn(c3));
    UnMixTurned(d3);
    UnMixAdds(c0, Turn(c1));
    UnMixAdds(Turn(d2), Turn(d3));
    UnMixAdds(AddColumn(c0, Turn(c1)), AddColumn(Turn(d2), Turn(d3)));
  }

  // ----- blocks: byte 4 * c + r is row r of column c

  type Block = s: seq<bv8> | |s| == 16 witness seq(16, i => 0)

  function Col(s: Block, c: nat): (r: Column)
    requires c < 4
  {
    Column(s[4 * c], s[4 * c + 1], s[4 * c + 2], s[4 * c + 3])
  }

  function Bytes(x: Column): (r: seq<bv8>)
    ensures |r| == 4
  {
    [x.r0, x.r1, x.r2, x.r3]
  }

  function Join(c0: Column, c1: Column, c2: Column, c3: Column): (r: Block) {
    Bytes(c0) + Bytes(c1) + Bytes(c2) + Bytes(c3)
  }

  function SubBytes(s: Block): Block {
    seq(16, i requires 0 <= i < 16 => Sbox(s[i]))
  }

  function InvSubBytes(s: Block): Block {
    seq(16, i requires 0 <= i < 16 => RSbox(s[i]))
  }

  /** Row `r` moves left by `r` columns. */
  function ShiftRows(s: Block): Block {
    seq(16, i requires 0 <= i < 16 => s[(i / 4 + i % 4) % 4 * 4 + i % 4])
  }

  function InvShiftRows(s: Block): Block {
    seq(16, i requires 0 <= i < 16 => s[(i / 4 + 4 - i % 4) % 4 * 4 + i % 4])
  }

  function MixColumns(s: Block): Block {
    Join(MixColumn(Col(s, 0)), MixColumn(Col(s, 1)), MixColumn(Col(s, 2)), MixColumn(Col(s, 3)))
  }

  function InvMixColumns(s: Block): Block {
    Join(InvMixColumn(Col(s, 0)), InvMixColumn(Col(s, 1)), InvMixColumn(Col(s, 2)), InvMixColumn(Col(s, 3)))
  }

  function AddRoundKey(s: Block, key: Block): Block {
    seq(16, i requires 0 <= i < 16 => Add(s[i], key[i]))
  }

  lemma JoinCols(s: Block)
    ensures Join(Col(s, 0), Col(s, 1), Col(s, 2), Col(s, 3)) == s
  {
  }

  lemma ColsOfJoin(c0: Column, c1: Column, c2: Column, c3: Column)
    ensures var s := Join(c0, c1, c2, c3);
            Col(s, 0) == c0 && Col(s, 1) == c1 && Col(s, 2) == c2 && Col(s, 3) == c3
  {
  }

  lemma UnMixColumns(s: Block)
    ensures InvMixColumns(MixColumns(s)) == s
  {
    hide MixColumn, InvMixColumn, Join, Col;
    ColsOfJoin(MixColumn(Col(s, 0)), MixColumn(Col(s, 1)), MixColumn(Col(s, 2)), MixColumn(Col(s, 3)));
    UnMix(Col(s, 0));
    UnMix(Col(s, 1));
    UnMix(Col(s, 2));
    UnMix(Col(s, 3));
    JoinCols(s);
  }

  lemma UnShiftRows(s: Block)
    ensures InvShiftRows(ShiftRows(s)) == s
  {
    forall i | 0 <= i < 16 ensures InvShiftRows(ShiftRows(s))[i] == s[i] {
      var j := (i / 4 + 4 - i % 4) % 4 * 4 + i % 4;
      ShiftBack(i / 4, i % 4);
      assert InvShiftRows(ShiftRows(s))[i] == ShiftRows(s)[j];
      ShiftedAt(s, j, i);
    }
  }

  lemma ShiftedAt(s: Block, j: nat, i: nat)
    requires j < 16 && i == (j / 4 + j % 4) % 4 * 4 + j % 4
    ensures ShiftRows(s)[j] == s[i]
  {
  }

  lemma ShiftBack(c: nat, r: nat)
    requires c < 4 && r < 4
    ensures var j := (c + 4 - r) % 4 * 4 + r;
            0 <= j < 16 && j % 4 == r && (j / 4 + r) % 4 == c
  {
  }

  lemma UnSubBytes(s: Block)
    ensures InvSubBytes(SubBytes(s)) == s
  {
    hide Sbox, RSbox;
    forall i | 0 <= i < 16 ensures RSbox(Sbox(s[i])) == s[i] {
      SboxUndone(s[i]);
    }
  }

  lemma SubShiftCommute(s: Block)
    ensures InvSubBytes(InvShiftRows(ShiftRows(SubBytes(s)))) == s
  {
    hide InvSubBytes, SubBytes, InvShiftRows, ShiftRows;
    UnShiftRows(SubBytes(s));
    UnSubBytes(s);
  }

  lemma ColAdds(s: Block, key: Block, c: nat)
    requires c < 4
    ensures Col(AddRoundKey(s, key), c) == AddColumn(Col(s, c), Col(key, c))
  {
    hide Add;
  }

  lemma InvMixColumnsAdds(s: Block, key: Block)
    ensures InvMixColumns(AddRoundKey(s, key)) == AddRoundKey(InvMixColumns(s), InvMixColumns(key))
  {
    hide InvMixColumn, Col, AddColumn, AddRoundKey, Join;
    var sum := AddRoundKey(s, key);
    var t := AddRoundKey(InvMixColumns(s), InvMixColumns(key));
    ColsOfJoin(InvMixColumn(Col(s, 0)), InvMixColumn(Col(s, 1)), InvMixColumn(Col(s, 2)), InvMixColumn(Col(s, 3)));
    ColsOfJoin(InvMixColumn(Col(key, 0)), InvMixColumn(Col(key, 1)),
               InvMixColumn(Col(key, 2)), InvMixColumn(Col(key, 3)));
    forall c: nat | c < 4
      ensures Col(t, c) == InvMixColumn(Col(sum, c))
    {
      ColAdds(s, key, c);
      ColAdds(InvMixColumns(s), InvMixColumns(key), c);
      InvMixAdds(Col(s, c), Col(key, c));
      if c == 0 {} else if c == 1 {} else if c == 2 {} else {}
    }
    JoinCols(t);
  }

  lemma AddTwice(s: Block, key: Block)
    ensures AddRoundKey(AddRoundKey(s, key), key) == s
  {
    hide Add;
    forall i | 0 <= i < 16 ensures Add(Add(s[i], key[i]), key[i]) == s[i] {
      AddUndone(s[i], key[i]);
    }
  }

  lemma AddUndone(a: bv8, b: bv8)
    ensures Add(Add(a, b), b) == a
  {
  }

  // ----- the cipher, section 5.1, and the equivalent inverse cipher, section 5.3.5

  function Round(s: Block, key: Block): Block {
    AddRoundKey(MixColumns(ShiftRows(SubBytes(s))), key)
  }

  function LastRound(s: Block, key: Block): Block {
    AddRoundKey(ShiftRows(SubBytes(s)), key)
  }

  function InverseRound(s: Block, key: Block): Block {
    AddRoundKey(InvMixColumns(InvSubBytes(InvShiftRows(s))), key)
  }

  function InverseLastRound(s: Block, key: Block): Block {
    AddRoundKey(InvSubBytes(InvShiftRows(s)), key)
  }

  function Rounds(s: Block, keys: seq<Block>): Block {
    if keys == [] then s else Round(Rounds(s, keys[..|keys| - 1]), keys[|keys| - 1])
  }

  /** From the last key to the first, each one passed through InvMixColumns. */
  function InverseRounds(s: Block, keys: seq<Block>): Block
    decreases |keys|
  {
    if keys == [] then s
    else InverseRounds(InverseRound(s, InvMixColumns(keys[|keys| - 1])), keys[..|keys| - 1])
  }

  function Encrypt(s: Block, first: Block, keys: seq<Block>, last: Block): Block {
    LastRound(Rounds(AddRoundKey(s, first), keys), last)
  }

  function Decrypt(s: Block, first: Block, keys: seq<Block>, last: Block): Block {
    InverseLastRound(InverseRounds(AddRoundKey(s, last), keys), first)
  }

  /** A decryption round takes the substituted and shifted state after a round to the one before. */
  lemma RoundUndone(s: Block, key: Block)
    ensures InverseRound(ShiftRows(SubBytes(Round(s, key))), InvMixColumns(key)) == ShiftRows(SubBytes(s))
  {
    hide SubBytes, InvSubBytes, ShiftRows, InvShiftRows, MixColumns, InvMixColumns, AddRoundKey;
    var t := ShiftRows(SubBytes(s));
    SubShiftCommute(Round(s, key));
    InvMixColumnsAdds(MixColumns(t), key);
    UnMixColumns(t);
    AddTwice(t, InvMixColumns(key));
  }

  lemma {:induction false} RoundsUndone(s: Block, keys: seq<Block>)
    ensures InverseRounds(ShiftRows(SubBytes(Rounds(s, keys))), keys) == ShiftRows(SubBytes(s))
    decreases |keys|
  {
    hide Round, InverseRound, ShiftRows, SubBytes;
    if keys != [] {
      var front := keys[..|keys| - 1];
      RoundUndone(Rounds(s, front), keys[|keys| - 1]);
      RoundsUndone(s, front);
    }
  }

  /** Decryption returns every block, whatever the round keys are and however many. */
  lemma RoundTrip(s: Block, first: Block, keys: seq<Block>, last: Block)
    ensures Decrypt(Encrypt(s, first, keys, last), first, keys, last) == s
  {
    hide Rounds, InverseRounds, SubBytes, InvSubBytes, ShiftRows, InvShiftRows, AddRoundKey;
    var white := AddRoundKey(s, first);
    AddTwice(ShiftRows(SubBytes(Rounds(white, keys))), last);
    RoundsUndone(white, keys);
    SubShiftCommute(white);
    AddTwice(s, first);
  }

  // ----- the first round of the example in appendix B of FIPS 197

  lemma ExampleBytes0()
    ensures Sbox(0x19) == 0xd4 && Sbox(0x3d) == 0x27 && Sbox(0xe3) == 0x11 && Sbox(0xbe) == 0xae
  {
  }

  lemma ExampleBytes1()
    ensures Sbox(0xa0) == 0xe0 && Sbox(0xf4) == 0xbf && Sbox(0xe2) == 0x98 && Sbox(0x2b) == 0xf1
  {
  }

  lemma ExampleBytes2()
    ensures Sbox(0x9a) == 0xb8 && Sbox(0xc6) == 0xb4 && Sbox(0x8d) == 0x5d && Sbox(0x2a) == 0xe5
  {
  }

  lemma ExampleBytes3()
    ensures Sbox(0xe9) == 0x1e && Sbox(0xf8) == 0x41 && Sbox(0x48) == 0x52 && Sbox(0x08) == 0x30
  {
  }

  lemma ExampleProducts0()
    ensures Times(1, 0xd4) == 0xd4 && Times(2, 0xd4) == 0xb3 && Times(3, 0xd4) == 0x67
    ensures Times(1, 0xbf) == 0xbf && Times(2, 0xbf) == 0x65 && Times(3, 0xbf) == 0xda
    ensures Times(1, 0x5d) == 0x5d && Times(2, 0x5d) == 0xba && Times(3, 0x5d) == 0xe7
    ensures Times(1, 0x30) == 0x30 && Times(2, 0x30) == 0x60 && Times(3, 0x30) == 0x50
  {
  }

  lemma ExampleProducts1()
    ensures Times(1, 0xe0) == 0xe0 && Times(2, 0xe0) == 0xdb && Times(3, 0xe0) == 0x3b
    ensures Times(1, 0xb4) == 0xb4 && Times(2, 0xb4) == 0x73 && Times(3, 0xb4) == 0xc7
    ensures Times(1, 0x52) == 0x52 && Times(2, 0x52) == 0xa4 && Times(3, 0x52) == 0xf6
    ensures Times(1, 0xae) == 0xae && Times(2, 0xae) == 0x47 && Times(3, 0xae) == 0xe9
  {
  }

  lemma ExampleProducts2()
    ensures Times(1, 0xb8) == 0xb8 && Times(2, 0xb8) == 0x6b && Times(3, 0xb8) == 0xd3
    ensures Times(1, 0x41) == 0x41 && Times(2, 0x41) == 0x82 && Times(3, 0x41) == 0xc3
    ensures Times(1, 0x11) == 0x11 && Times(2, 0x11) == 0x22 && Times(3, 0x11) == 0x33
    ensures Times(1, 0xf1) == 0xf1 && Times(2, 0xf1) == 0xf9 && Times(3, 0xf1) == 0x08
  {
  }

  lemma ExampleProducts3()
    ensures Times(1, 0x1e) == 0x1e && Times(2, 0x1e) == 0x3c && Times(3, 0x1e) == 0x22
    ensures Times(1, 0x27) == 0x27 && Times(2, 0x27) == 0x4e && Times(3, 0x27) == 0x69
    ensures Times(1, 0x98) == 0x98 && Times(2, 0x98) == 0x2b && Times(3, 0x98) == 0xb3
    ensures Times(1, 0xe5) == 0xe5 && Times(2, 0xe5) == 0xd1 && Times(3, 0xe5) == 0x34
  {
  }

  lemma ExampleDots0()
    ensures Add(Add(0xb3, 0xda), Add(0x5d, 0x30)) == 0x04
    ensures Add(Add(0xd4, 0x65), Add(0xe7, 0x30)) == 0x66
    ensures Add(Add(0xd4, 0xbf), Add(0xba, 0x50)) == 0x81
    ensures Add(Add(0x67, 0xbf), Add(0x5d, 0x60)) == 0xe5
  {
  }

  lemma ExampleColumn0()
    ensures MixColumn(Column(0xd4, 0xbf, 0x5d, 0x30))
         == Column(0x04, 0x66, 0x81, 0xe5)
  {
    hide Times, Add;
    ExampleProducts0();
    ExampleDots0();
  }

  lemma ExampleDots1()
    ensures Add(Add(0xdb, 0xc7), Add(0x52, 0xae)) == 0xe0
    ensures Add(Add(0xe0, 0x73), Add(0xf6, 0xae)) == 0xcb
    ensures Add(Add(0xe0, 0xb4), Add(0xa4, 0xe9)) == 0x19
    ensures Add(Add(0x3b, 0xb4), Add(0x52, 0x47)) == 0x9a
  {
  }

  lemma ExampleColumn1()
    ensures MixColumn(Column(0xe0, 0xb4, 0x52, 0xae))
         == Column(0xe0, 0xcb, 0x19, 0x9a)
  {
    hide Times, Add;
    ExampleProducts1();
    ExampleDots1();
  }

  lemma ExampleDots2()
    ensures Add(Add(0x6b, 0xc3), Add(0x11, 0xf1)) == 0x48
    ensures Add(Add(0xb8, 0x82), Add(0x33, 0xf1)) == 0xf8
    ensures Add(Add(0xb8, 0x41), Add(0x22, 0x08)) == 0xd3
    ensures Add(Add(0xd3, 0x41), Add(0x11, 0xf9)) == 0x7a
  {
  }

  lemma ExampleColumn2()
    ensures MixColumn(Column(0xb8, 0x41, 0x11, 0xf1))
         == Column(0x48, 0xf8, 0xd3, 0x7a)
  {
    hide Times, Add;
    ExampleProducts2();
    ExampleDots2();
  }

  lemma ExampleDots3()
    ensures Add(Add(0x3c, 0x69), Add(0x98, 0xe5)) == 0x28
    ensures Add(Add(0x1e, 0x4e), Add(0xb3, 0xe5)) == 0x06
    ensures Add(Add(0x1e, 0x27), Add(0x2b, 0x34)) == 0x26
    ensures Add(Add(0x22, 0x27), Add(0x98, 0xd1)) == 0x4c
  {
  }

  lemma ExampleColumn3()
    ensures MixColumn(Column(0x1e, 0x27, 0x98, 0xe5))
         == Column(0x28, 0x06, 0x26, 0x4c)
  {
    hide Times, Add;
    ExampleProducts3();
    ExampleDots3();
  }

  lemma ExampleSums()
    ensures Add(0x04, 0xa0) == 0xa4 && Add(0x66, 0xfa) == 0x9c && Add(0x81, 0xfe) == 0x7f && Add(0xe5, 0x17) == 0xf2
    ensures Add(0xe0, 0x88) == 0x68 && Add(0xcb, 0x54) == 0x9f && Add(0x19, 0x2c) == 0x35 && Add(0x9a, 0xb1) == 0x2b
    ensures Add(0x48, 0x23) == 0x6b && Add(0xf8, 0xa3) == 0x5b && Add(0xd3, 0x39) == 0xea && Add(0x7a, 0x39) == 0x43
    ensures Add(0x28, 0x2a) == 0x02 && Add(0x06, 0x6c) == 0x6a && Add(0x26, 0x76) == 0x50 && Add(0x4c, 0x05) == 0x49
  {
  }

  lemma ExampleSub()
    ensures SubBytes([0x19, 0x3d, 0xe3, 0xbe, 0xa0, 0xf4, 0xe2, 0x2b, 0x9a, 0xc6, 0x8d, 0x2a, 0xe9, 0xf8, 0x48, 0x08])
         == [0xd4, 0x27, 0x11, 0xae, 0xe0, 0xbf, 0x98, 0xf1, 0xb8, 0xb4, 0x5d, 0xe5, 0x1e, 0x41, 0x52, 0x30]
  {
    hide Sbox;
    ExampleBytes0();
    ExampleBytes1();
    ExampleBytes2();
    ExampleBytes3();
  }

  /** The bytes of each column come from four columns. */
  lemma ShiftRowsBytes(s: Block)
    ensures ShiftRows(s) == [s[0], s[5], s[10], s[15], s[4], s[9], s[14], s[3],
                             s[8], s[13], s[2], s[7], s[12], s[1], s[6], s[11]]
  {
  }

  lemma ExampleShift()
    ensures ShiftRows([0xd4, 0x27, 0x11, 0xae, 0xe0, 0xbf, 0x98, 0xf1, 0xb8, 0xb4, 0x5d, 0xe5, 0x1e, 0x41, 0x52, 0x30])
         == [0xd4, 0xbf, 0x5d, 0x30, 0xe0, 0xb4, 0x52, 0xae, 0xb8, 0x41, 0x11, 0xf1, 0x1e, 0x27, 0x98, 0xe5]
  {
    ShiftRowsBytes([0xd4, 0x27, 0x11, 0xae, 0xe0, 0xbf, 0x98, 0xf1, 0xb8, 0xb4, 0x5d, 0xe5, 0x1e, 0x41, 0x52, 0x30]);
    hide ShiftRows;
  }

  lemma ExampleMix()
    ensures MixColumns([0xd4, 0xbf, 0x5d, 0x30, 0xe0, 0xb4, 0x52, 0xae, 0xb8, 0x41, 0x11, 0xf1, 0x1e, 0x27, 0x98, 0xe5])
         == [0x04, 0x66, 0x81, 0xe5, 0xe0, 0xcb, 0x19, 0x9a, 0x48, 0xf8, 0xd3, 0x7a, 0x28, 0x06, 0x26, 0x4c]
  {
    hide MixColumn;
    ExampleColumn0();
    ExampleColumn1();
    ExampleColumn2();
    ExampleColumn3();
  }

  lemma ExampleAdd()
    ensures AddRoundKey(
              [0x04, 0x66, 0x81, 0xe5, 0xe0, 0xcb, 0x19, 0x9a, 0x48, 0xf8, 0xd3, 0x7a, 0x28, 0x06, 0x26, 0x4c],
              [0xa0, 0xfa, 0xfe, 0x17, 0x88, 0x54, 0x2c, 0xb1, 0x23, 0xa3, 0x39, 0x39, 0x2a, 0x6c, 0x76, 0x05])
         == [0xa4, 0x9c, 0x7f, 0xf2, 0x68, 0x9f, 0x35, 0x2b, 0x6b, 0x5b, 0xea, 0x43, 0x02, 0x6a, 0x50, 0x49]
  {
    hide Add;
    ExampleSums();
  }

  /** The state and key at the start of round 1 give the state at the start of round 2. */
  lemma ExampleRound()
    ensures Round([0x19, 0x3d, 0xe3, 0xbe, 0xa0, 0xf4, 0xe2, 0x2b, 0x9a, 0xc6, 0x8d, 0x2a, 0xe9, 0xf8, 0x48, 0x08],
                  [0xa0, 0xfa, 0xfe, 0x17, 0x88, 0x54, 0x2c, 0xb1, 0x23, 0xa3, 0x39, 0x39, 0x2a, 0x6c, 0x76, 0x05])
         == [0xa4, 0x9c, 0x7f, 0xf2, 0x68, 0x9f, 0x35, 0x2b, 0x6b, 0x5b, 0xea, 0x43, 0x02, 0x6a, 0x50, 0x49]
  {
    hide SubBytes, ShiftRows, MixColumns, AddRoundKey;
    ExampleSub();
    ExampleShift();
    ExampleMix();
    ExampleAdd();
  }

  // ----- the table-based encryption round

  /** Doubling and tripling in the table generator, on the promoted integer. */
  function F2(x: bv32): bv32 {
    (x << 1) ^ (((x >> 7) & 1) * 0x011b)
  }

  function F3(x: bv32): bv32 {
    F2(x) ^ x
  }

  function B2W(b0: bv32, b1: bv32, b2: bv32, b3: bv32): bv32 {
    (b3 << 24) | (b2 << 16) | (b1 << 8) | b0
  }

  function U0(p: bv32): bv32 { B2W(F2(p), p, p, F3(p)) }
  function U1(p: bv32): bv32 { B2W(F3(p), F2(p), p, p) }
  function U2(p: bv32): bv32 { B2W(p, F3(p), F2(p), p) }
  function U3(p: bv32): bv32 { B2W(p, p, F3(p), F2(p)) }

  function Wide(b: bv8): bv32 { b as bv32 }

  /** `aes_table[k][x]` */
  function AesTable(k: nat, x: bv8): bv32
    requires k < 4
  {
    var p := Wide(Sbox(x));
    if k == 0 then U0(p) else if k == 1 then U1(p) else if k == 2 then U2(p) else U3(p)
  }

  function Byte0(w: bv32): bv8 { (w & 0xff) as bv8 }
  function Byte1(w: bv32): bv8 { ((w >> 8) & 0xff) as bv8 }
  function Byte2(w: bv32): bv8 { ((w >> 16) & 0xff) as bv8 }
  function Byte3(w: bv32): bv8 { (w >> 24) as bv8 }

  /** The 32-bit lanes of a block, lowest byte first. */
  function Lane(x: Column): bv32 {
    B2W(Wide(x.r0), Wide(x.r1), Wide(x.r2), Wide(x.r3))
  }

  function LaneBytes(w: bv32): Column {
    Column(Byte0(w), Byte1(w), Byte2(w), Byte3(w))
  }

  function Xor4(a: bv32, b: bv32, c: bv32, d: bv32): bv32 { a ^ b ^ c ^ d }

  /** One lane of the result: table look-ups for the four bytes, added up. */
  function TableLane(w0: bv32, w1: bv32, w2: bv32, w3: bv32): bv32 {
    Xor4(AesTable(0, Byte0(w0)), AesTable(1, Byte1(w1)), AesTable(2, Byte2(w2)), AesTable(3, Byte3(w3)))
  }

  /** `_mm_aesenc_si128` */
  function AesEnc(a: Block, key: Block): Block {
    var x0, x1, x2, x3 := Lane(Col(a, 0)), Lane(Col(a, 1)), Lane(Col(a, 2)), Lane(Col(a, 3));
    var out := Join(LaneBytes(TableLane(x0, x1, x2, x3)), LaneBytes(TableLane(x1, x2, x3, x0)),
                    LaneBytes(TableLane(x2, x3, x0, x1)), LaneBytes(TableLane(x3, x0, x1, x2)));
    AddRoundKey(out, key)
  }

  lemma LaneRoundTrip(x: Column)
    ensures LaneBytes(Lane(x)) == x
  {
  }

  lemma LanesAdd(x: Column, y: Column)
    ensures Lane(x) ^ Lane(y) == Lane(AddColumn(x, y))
  {
  }

  lemma Doubles(p: bv8)
    ensures F2(Wide(p)) == Wide(XTime(p))
    ensures F3(Wide(p)) == Wide(Add(p, XTime(p)))
  {
  }

  /** The tables hold the columns by which one substituted byte enters the mixed column. */
  lemma TableColumns(p: bv8)
    ensures U0(Wide(p)) == Lane(Column(Times(2, p), p, p, Times(3, p)))
    ensures U1(Wide(p)) == Lane(Column(Times(3, p), Times(2, p), p, p))
    ensures U2(Wide(p)) == Lane(Column(p, Times(3, p), Times(2, p), p))
    ensures U3(Wide(p)) == Lane(Column(p, p, Times(3, p), Times(2, p)))
  {
    hide F2, F3, XTime, Add, Times, B2W, Wide;
    Doubles(p);
    Products(p);
  }

  lemma AddRegrouped(x: Column, y: Column, z: Column, w: Column)
    ensures AddColumn(AddColumn(AddColumn(x, y), z), w) == AddColumn(AddColumn(x, y), AddColumn(z, w))
  {
    hide Add;
    AddAssociates(Add(x.r0, y.r0), z.r0, w.r0);
    AddAssociates(Add(x.r1, y.r1), z.r1, w.r1);
    AddAssociates(Add(x.r2, y.r2), z.r2, w.r2);
    AddAssociates(Add(x.r3, y.r3), z.r3, w.r3);
  }

  lemma FourLanes(x: Column, y: Column, z: Column, w: Column)
    ensures LaneBytes(Xor4(Lane(x), Lane(y), Lane(z), Lane(w))) == AddColumn(AddColumn(x, y), AddColumn(z, w))
  {
    hide Lane, LaneBytes, AddColumn;
    LanesAdd(x, y);
    LanesAdd(AddColumn(x, y), z);
    LanesAdd(AddColumn(AddColumn(x, y), z), w);
    LaneRoundTrip(AddColumn(AddColumn(AddColumn(x, y), z), w));
    AddRegrouped(x, y, z, w);
  }

  /** A lane of the table round is a mixed column of substituted bytes taken along a diagonal. */
  lemma TableLaneMixes(x0: Column, x1: Column, x2: Column, x3: Column)
    ensures LaneBytes(TableLane(Lane(x0), Lane(x1), Lane(x2), Lane(x3)))
         == MixColumn(Column(Sbox(x0.r0), Sbox(x1.r1), Sbox(x2.r2), Sbox(x3.r3)))
  {
    hide Byte0, Byte1, Byte2, Byte3, Lane, U0, U1, U2, U3, Wide, Times, Add, Sbox, Xor4;
    LaneRoundTrip(x0);
    LaneRoundTrip(x1);
    LaneRoundTrip(x2);
    LaneRoundTrip(x3);
    var a, b, c, d := Sbox(x0.r0), Sbox(x1.r1), Sbox(x2.r2), Sbox(x3.r3);
    TableColumns(a);
    TableColumns(b);
    TableColumns(c);
    TableColumns(d);
    Products(a);
    Products(b);
    Products(c);
    Products(d);
    FourLanes(Column(Times(2, a), a, a, Times(3, a)), Column(Times(3, b), Times(2, b), b, b),
              Column(c, Times(3, c), Times(2, c), c), Column(d, d, Times(3, d), Times(2, d)));
  }

  lemma SubstitutedBytes(s: Block)
    ensures forall i | 0 <= i < 16 :: SubBytes(s)[i] == Sbox(s[i])
  {
    hide Sbox;
  }

  lemma Diagonal(s: Block, c: nat)
    requires c < 4
    ensures Col(ShiftRows(SubBytes(s)), c)
         == Column(Sbox(s[c * 4]), Sbox(s[(c + 1) % 4 * 4 + 1]),
                   Sbox(s[(c + 2) % 4 * 4 + 2]), Sbox(s[(c + 3) % 4 * 4 + 3]))
  {
    hide Sbox, ShiftRows, SubBytes;
    ShiftRowsBytes(SubBytes(s));
    SubstitutedBytes(s);
    if c == 0 {} else if c == 1 {} else if c == 2 {} else {}
  }

  /** The table-based round is the round of the standard. */
  lemma AesEncIsRound(a: Block, key: Block)
    ensures AesEnc(a, key) == Round(a, key)
  {
    hide LaneBytes, TableLane, Lane, MixColumn, Sbox, SubBytes, ShiftRows, AddRoundKey, Join;
    var x0, x1, x2, x3 := Col(a, 0), Col(a, 1), Col(a, 2), Col(a, 3);
    TableLaneMixes(x0, x1, x2, x3);
    TableLaneMixes(x1, x2, x3, x0);
    TableLaneMixes(x2, x3, x0, x1);
    TableLaneMixes(x3, x0, x1, x2);
    Diagonal(a, 0);
    Diagonal(a, 1);
    Diagonal(a, 2);
    Diagonal(a, 3);
  }

  lemma JoinLists(x: Column, y: Column, z: Column, w: Column)
    ensures Join(x, y, z, w) == [x.r0, x.r1, x.r2, x.r3, y.r0, y.r1, y.r2, y.r3,
                                 z.r0, z.r1, z.r2, z.r3, w.r0, w.r1, w.r2, w.r3]
  {
    assert Bytes(x) + Bytes(y) == [x.r0, x.r1, x.r2, x.r3, y.r0, y.r1, y.r2, y.r3];
    assert Bytes(x) + Bytes(y) + Bytes(z)
        == [x.r0, x.r1, x.r2, x.r3, y.r0, y.r1, y.r2, y.r3, z.r0, z.r1, z.r2, z.r3];
  }

  /** `_mm_aesenclast_si128` */
  function AesEncLast(a: Block, key: Block): Block {
    var v := [
      Sbox(a[0]), Sbox(a[5]), Sbox(a[10]), Sbox(a[15]), Sbox(a[4]), Sbox(a[9]), Sbox(a[14]), Sbox(a[3]),
      Sbox(a[8]), Sbox(a[13]), Sbox(a[2]), Sbox(a[7]), Sbox(a[12]), Sbox(a[1]), Sbox(a[6]), Sbox(a[11])
    ];
    AddRoundKey(v, key)
  }

  lemma AesEncLastIsLastRound(a: Block, key: Block)
    ensures AesEncLast(a, key) == LastRound(a, key)
  {
    hide Sbox, AddRoundKey, ShiftRows, SubBytes, Join;
    var t := ShiftRows(SubBytes(a));
    Diagonal(a, 0);
    Diagonal(a, 1);
    Diagonal(a, 2);
    Diagonal(a, 3);
    JoinCols(t);
    JoinLists(Col(t, 0), Col(t, 1), Col(t, 2), Col(t, 3));
  }

  // ----- the decryption rounds, on a 4 by 4 array

  function Xt(x: bv32): bv32 {
    (x << 1) ^ (((x >> 7) & 1) * 0x1b)
  }

  function Selected(y: bv32, x: bv32, x1: bv32, x2: bv32, x3: bv32, x4: bv32): bv32 {
    ((y & 1) * x) ^ (((y >> 1) & 1) * x1) ^ (((y >> 2) & 1) * x2) ^ (((y >> 3) & 1) * x3) ^ (((y >> 4) & 1) * x4)
  }

  function Multiply(x: bv32, y: bv32): bv32 {
    Selected(y, x, Xt(x), Xt(Xt(x)), Xt(Xt(Xt(x))), Xt(Xt(Xt(Xt(x)))))
  }

  function Truncated(x: bv32): bv8 { (x & 0xff) as bv8 }

  lemma XtTruncates(x: bv32)
    ensures Truncated(Xt(x)) == XTime(Truncated(x))
  {
  }

  lemma TruncatedWide(x: bv8)
    ensures Truncated(Wide(x)) == x
  {
  }

  lemma Select09(x: bv32, x1: bv32, x2: bv32, x3: bv32, x4: bv32)
    ensures Truncated(Selected(0x09, x, x1, x2, x3, x4)) == Add(Truncated(x), Truncated(x3))
  {
  }

  lemma Select0b(x: bv32, x1: bv32, x2: bv32, x3: bv32, x4: bv32)
    ensures Truncated(Selected(0x0b, x, x1, x2, x3, x4)) == Add(Truncated(x), Add(Truncated(x1), Truncated(x3)))
  {
  }

  lemma Select0d(x: bv32, x1: bv32, x2: bv32, x3: bv32, x4: bv32)
    ensures Truncated(Selected(0x0d, x, x1, x2, x3, x4)) == Add(Truncated(x), Add(Truncated(x2), Truncated(x3)))
  {
  }

  lemma Select0e(x: bv32, x1: bv32, x2: bv32, x3: bv32, x4: bv32)
    ensures Truncated(Selected(0x0e, x, x1, x2, x3, x4)) == Add(Truncated(x1), Add(Truncated(x2), Truncated(x3)))
  {
  }

  /** The macro multiplies on promoted integers; only its lowest byte is kept. */
  lemma MultiplyTruncates(x: bv8)
    ensures Truncated(Multiply(Wide(x), 0x09)) == Times(0x09, x)
    ensures Truncated(Multiply(Wide(x), 0x0b)) == Times(0x0b, x)
    ensures Truncated(Multiply(Wide(x), 0x0d)) == Times(0x0d, x)
    ensures Truncated(Multiply(Wide(x), 0x0e)) == Times(0x0e, x)
  {
    hide Truncated, Wide, Selected, Times, Xt, XTime, Add;
    var x0 := Wide(x);
    TruncatedWide(x);
    XtTruncates(x0);
    XtTruncates(Xt(x0));
    XtTruncates(Xt(Xt(x0)));
    var x1, x2, x3, x4 := Xt(x0), Xt(Xt(x0)), Xt(Xt(Xt(x0))), Xt(Xt(Xt(Xt(x0))));
    Select09(x0, x1, x2, x3, x4);
    Select0b(x0, x1, x2, x3, x4);
    Select0d(x0, x1, x2, x3, x4);
    Select0e(x0, x1, x2, x3, x4);
    Products(x);
  }

  /** One byte of the inverse transformation as the loop bodies compute it. */
  function UnmixByte(a: bv32, b: bv32, c: bv32, d: bv32, x: Column): bv8 {
    Truncated(Xor4(Multiply(Wide(x.r0), a), Multiply(Wide(x.r1), b), Multiply(Wide(x.r2), c), Multiply(Wide(x.r3), d)))
  }

  lemma TruncatedSum(a: bv32, b: bv32, c: bv32, d: bv32)
    ensures Truncated(Xor4(a, b, c, d)) == Add(Add(Truncated(a), Truncated(b)), Add(Truncated(c), Truncated(d)))
  {
  }

  lemma UnmixBytes(x: Column)
    ensures InvMixColumn(x) == Column(
      UnmixByte(0x0e, 0x0b, 0x0d, 0x09, x), UnmixByte(0x09, 0x0e, 0x0b, 0x0d, x),
      UnmixByte(0x0d, 0x09, 0x0e, 0x0b, x), UnmixByte(0x0b, 0x0d, 0x09, 0x0e, x))
  {
    hide Truncated, Wide, Multiply, Times, Add, Xor4;
    MultiplyTruncates(x.r0);
    MultiplyTruncates(x.r1);
    MultiplyTruncates(x.r2);
    MultiplyTruncates(x.r3);
    var e, f, g, h := Wide(x.r0), Wide(x.r1), Wide(x.r2), Wide(x.r3);
    TruncatedSum(Multiply(e, 0x0e), Multiply(f, 0x0b), Multiply(g, 0x0d), Multiply(h, 0x09));
    TruncatedSum(Multiply(e, 0x09), Multiply(f, 0x0e), Multiply(g, 0x0b), Multiply(h, 0x0d));
    TruncatedSum(Multiply(e, 0x0d), Multiply(f, 0x09), Multiply(g, 0x0e), Multiply(h, 0x0b));
    TruncatedSum(Multiply(e, 0x0b), Multiply(f, 0x0d), Multiply(g, 0x09), Multiply(h, 0x0e));
  }

  /** The 16 bytes of the array in memory order. */
  function Stored(v: array2<bv8>): (r: Block)
    requires v.Length0 == 4 && v.Length1 == 4
    reads v
    ensures forall k | 0 <= k < 16 :: r[k] == v[k / 4, k % 4]
  {
    seq(16, i requires 0 <= i < 16 reads v => v[i / 4, i % 4])
  }

  method UnshiftInto(a: Block, v: array2<bv8>)
    requires v.Length0 == 4 && v.Length1 == 4
    modifies v
    ensures Stored(v) == InvSubBytes(InvShiftRows(a))
    ensures forall j | 0 <= j < 16 :: v[(j / 4 + j % 4) % 4, j % 4] == RSbox(a[j])
  {
    hide RSbox;
    for i := 0 to 16
      invariant forall j | 0 <= j < i :: v[(j / 4 + j % 4) % 4, j % 4] == RSbox(a[j])
    {
      v[(i / 4 + i % 4) % 4, i % 4] := RSbox(a[i]);
    }
    forall i | 0 <= i < 16 ensures v[i / 4, i % 4] == InvSubBytes(InvShiftRows(a))[i] {
      ShiftBack(i / 4, i % 4);
    }
  }

  function RowOf(v: array2<bv8>, i: nat): (r: Column)
    requires v.Length0 == 4 && v.Length1 == 4 && i < 4
    reads v
    ensures r.r0 == v[i, 0] && r.r1 == v[i, 1] && r.r2 == v[i, 2] && r.r3 == v[i, 3]
  {
    Column(v[i, 0], v[i, 1], v[i, 2], v[i, 3])
  }

  lemma StoredRows(v: array2<bv8>)
    requires v.Length0 == 4 && v.Length1 == 4
    ensures Stored(v) == Join(RowOf(v, 0), RowOf(v, 1), RowOf(v, 2), RowOf(v, 3))
    ensures forall i: nat | i < 4 :: RowOf(v, i) == Col(Stored(v), i)
  {
    hide Join;
    JoinCols(Stored(v));
    forall i: nat | i < 4 ensures RowOf(v, i) == Col(Stored(v), i) {
      RowStored(v, i, 0);
      RowStored(v, i, 1);
      RowStored(v, i, 2);
      RowStored(v, i, 3);
    }
  }

  lemma RowStored(v: array2<bv8>, i: nat, j: nat)
    requires v.Length0 == 4 && v.Length1 == 4 && i < 4 && j < 4
    ensures Stored(v)[4 * i + j] == v[i, j]
  {
    assert (4 * i + j) / 4 == i && (4 * i + j) % 4 == j;
  }

  method UnmixRow(v: array2<bv8>, i: nat)
    requires v.Length0 == 4 && v.Length1 == 4 && i < 4
    modifies v
    ensures RowOf(v, i) == InvMixColumn(old(RowOf(v, i)))
    ensures forall j: nat | j < 4 && j != i :: RowOf(v, j) == old(RowOf(v, j))
  {
    hide Multiply, Wide, Truncated, Xor4, InvMixColumn;
    UnmixBytes(RowOf(v, i));
    var e, f, g, h := Wide(v[i, 0]), Wide(v[i, 1]), Wide(v[i, 2]), Wide(v[i, 3]);
    v[i, 0] := Truncated(Xor4(Multiply(e, 0x0e), Multiply(f, 0x0b), Multiply(g, 0x0d), Multiply(h, 0x09)));
    v[i, 1] := Truncated(Xor4(Multiply(e, 0x09), Multiply(f, 0x0e), Multiply(g, 0x0b), Multiply(h, 0x0d)));
    v[i, 2] := Truncated(Xor4(Multiply(e, 0x0d), Multiply(f, 0x09), Multiply(g, 0x0e), Multiply(h, 0x0b)));
    v[i, 3] := Truncated(Xor4(Multiply(e, 0x0b), Multiply(f, 0x0d), Multiply(g, 0x09), Multiply(h, 0x0e)));
  }

  method UnmixRows(v: array2<bv8>)
    requires v.Length0 == 4 && v.Length1 == 4
    modifies v
    ensures Stored(v) == InvMixColumns(old(Stored(v)))
  {
    hide InvMixColumn, Stored, Join, RowOf, Col;
    StoredRows(v);
    for i := 0 to 4
      invariant forall j: nat | i <= j < 4 :: RowOf(v, j) == old(RowOf(v, j))
      invariant forall j: nat | j < i :: RowOf(v, j) == InvMixColumn(old(RowOf(v, j)))
    {
      UnmixRow(v, i);
    }
    StoredRows(v);
  }

  /** `_mm_aesdec_si128` */
  method AesDec(a: Block, key: Block) returns (r: Block)
    ensures r == InverseRound(a, key)
  {
    hide AddRoundKey, Stored, InvMixColumns, InvSubBytes, InvShiftRows;
    var v := new bv8[4, 4];
    UnshiftInto(a, v);
    UnmixRows(v);
    r := AddRoundKey(Stored(v), key);
  }

  /** `_mm_aesdeclast_si128` */
  method AesDecLast(a: Block, key: Block) returns (r: Block)
    ensures r == InverseLastRound(a, key)
  {
    hide AddRoundKey, Stored, InvSubBytes, InvShiftRows;
    var v := new bv8[4, 4];
    UnshiftInto(a, v);
    r := AddRoundKey(Stored(v), key);
  }

  /** `_mm_aesimc_si128` */
  method AesImc(a: Block) returns (r: Block)
    ensures r == InvMixColumns(a)
  {
    hide InvMixColumns;
    var v := new bv8[4, 4];
    for i := 0 to 16
      invariant forall j | 0 <= j < i :: v[j / 4, j % 4] == a[j]
    {
      v[i / 4, i % 4] := a[i];
    }
    assert Stored(v) == a;
    UnmixRows(v);
    r := Stored(v);
  }

  // ----- whole blocks with the intrinsics

  /** The states of an encryption: the block with the first key, then one encryption round a key. */
  ghost predicate EncryptionStates(states: seq<Block>, s: Block, first: Block, keys: seq<Block>) {
    && |states| == |keys| + 1
    && (forall i | 0 <= i < 16 :: states[0][i] == s[i] ^ first[i])
    && (forall k | 0 <= k < |keys| :: states[k + 1] == AesEnc(states[k], keys[k]))
  }

  /** The states of a decryption: the block with the last key, then one decryption round a key, from
      the last of them to the first, each key transformed. */
  ghost predicate DecryptionStates(states: seq<Block>, s: Block, keys: seq<Block>, last: Block) {
    && |states| == |keys| + 1
    && (forall i | 0 <= i < 16 :: states[0][i] == s[i] ^ last[i])
    && (forall k | 0 <= k < |keys| :: states[k + 1] == InverseRound(states[k], InvMixColumns(keys[|keys| - 1 - k])))
  }

  lemma AddIsXor(s: Block, key: Block, t: Block)
    requires forall i | 0 <= i < 16 :: t[i] == s[i] ^ key[i]
    ensures t == AddRoundKey(s, key)
  {
  }

  lemma {:induction false} StatesAreRounds(states: seq<Block>, s: Block, first: Block, keys: seq<Block>, k: nat)
    requires EncryptionStates(states, s, first, keys) && k <= |keys|
    ensures states[k] == Rounds(AddRoundKey(s, first), keys[..k])
    decreases k
  {
    hide Round, AesEnc, AddRoundKey;
    if k == 0 {
      AddIsXor(s, first, states[0]);
    } else {
      StatesAreRounds(states, s, first, keys, k - 1);
      assert keys[..k][..k - 1] == keys[..k - 1];
      assert states[k - 1 + 1] == AesEnc(states[k - 1], keys[k - 1]);
      AesEncIsRound(states[k - 1], keys[k - 1]);
    }
  }

  lemma {:induction false} StatesAreInverseRounds(states: seq<Block>, s: Block, keys: seq<Block>, last: Block, k: nat)
    requires DecryptionStates(states, s, keys, last) && k <= |keys|
    ensures InverseRounds(AddRoundKey(s, last), keys) == InverseRounds(states[k], keys[..|keys| - k])
    decreases k
  {
    hide InverseRound, InvMixColumns, AddRoundKey;
    if k == 0 {
      AddIsXor(s, last, states[0]);
      assert keys[..|keys|] == keys;
    } else {
      StatesAreInverseRounds(states, s, keys, last, k - 1);
      var m := |keys| - k;
      assert keys[..m + 1][..m] == keys[..m];
      assert states[k - 1 + 1] == InverseRound(states[k - 1], InvMixColumns(keys[|keys| - 1 - (k - 1)]));
    }
  }

  method EncryptBlock(s: Block, first: Block, keys: seq<Block>, last: Block) returns (r: Block)
    ensures r == Encrypt(s, first, keys, last)
    ensures exists states :: EncryptionStates(states, s, first, keys)
    ensures forall states | EncryptionStates(states, s, first, keys) :: r == AesEncLast(states[|keys|], last)
  {
    hide Round, LastRound, AesEnc, AesEncLast, AddRoundKey;
    r := AddRoundKey(s, first);
    assert keys[..0] == [];
    ghost var trace := [r];
    Whitened(s, first);
    for i := 0 to |keys|
      invariant r == Rounds(AddRoundKey(s, first), keys[..i])
      invariant EncryptionStates(trace, s, first, keys[..i]) && trace[i] == r
    {
      assert keys[..i + 1][..i] == keys[..i];
      AesEncIsRound(r, keys[i]);
      r := AesEnc(r, keys[i]);
      trace := trace + [r];
    }
    assert keys[..|keys|] == keys;
    AesEncLastIsLastRound(r, last);
    forall states | EncryptionStates(states, s, first, keys) ensures states[|keys|] == r {
      StatesAreRounds(states, s, first, keys, |keys|);
    }
    r := AesEncLast(r, last);
  }

  lemma Whitened(s: Block, key: Block)
    ensures forall i | 0 <= i < 16 :: AddRoundKey(s, key)[i] == s[i] ^ key[i]
  {
  }

  method DecryptBlock(s: Block, first: Block, keys: seq<Block>, last: Block) returns (r: Block)
    ensures r == Decrypt(s, first, keys, last)
    ensures exists states :: DecryptionStates(states, s, keys, last)
    ensures forall states | DecryptionStates(states, s, keys, last) :: r == InverseLastRound(states[|keys|], first)
  {
    hide InverseRound, InverseLastRound, InvMixColumns, AddRoundKey;
    r := AddRoundKey(s, last);
    assert keys[..|keys|] == keys;
    ghost var trace := [r];
    Whitened(s, last);
    for i := |keys| downto 0
      invariant InverseRounds(r, keys[..i]) == InverseRounds(AddRoundKey(s, last), keys)
      invariant |trace| == |keys| - i + 1 && trace[|keys| - i] == r
      invariant forall j | 0 <= j < 16 :: trace[0][j] == s[j] ^ last[j]
      invariant forall k | 0 <= k < |keys| - i ::
                  trace[k + 1] == InverseRound(trace[k], InvMixColumns(keys[|keys| - 1 - k]))
    {
      assert keys[..i + 1][..i] == keys[..i];
      var key := AesImc(keys[i]);
      r := AesDec(r, key);
      trace := trace + [r];
    }
    assert DecryptionStates(trace, s, keys, last);
    forall states | DecryptionStates(states, s, keys, last) ensures states[|keys|] == r {
      StatesAreInverseRounds(states, s, keys, last, |keys|);
    }
    r := AesDecLast(r, first);
  }

  /** A block encrypted and decrypted with the intrinsics comes back, under any list of round keys. */
  method BlockRoundTrip(s: Block, first: Block, keys: seq<Block>, last: Block) returns (r: Block)
    ensures r == s
  {
    hide Encrypt, Decrypt;
    var encrypted := EncryptBlock(s, first, keys, last);
    r := DecryptBlock(encrypted, first, keys, last);
    RoundTrip(s, first, keys, last);
  }

  /** `prg_aes`, one block of the generator: the encryption of the block, added to the block. */
  method PrgAes(src: Block, r: seq<Block>) returns (dest: Block)
    requires |r| == 11
    ensures forall states | EncryptionStates(states, src, r[0], r[1..10]) ::
              forall i | 0 <= i < 16 :: dest[i] == AesEncLast(states[9], r[10])[i] ^ src[i]
  {
    hide Encrypt, AesEnc, AesEncLast, EncryptionStates;
    var mr := EncryptBlock(src, r[0], r[1..10], r[10]);
    dest := AddRoundKey(mr, src);
    Whitened(mr, src);
  }
}
