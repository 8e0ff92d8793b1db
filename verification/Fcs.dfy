/**
 The 16-bit frame check sequence of the PPP framing (RFC 1662, appendix C): the table-driven update,
 the bit-serial form it refines, and which payloads it tells apart.
 */
module Fcs {
  import opened Bits
  import opened FcsTable

  const POLYNOMIAL: word := 0x8408
  const INITIAL: word := 0xFFFF

  lemma SixteenBits()
    ensures Power2(16) == 65536
  {
    EightBits();
    assert Power2(12) == 16 * Power2(8);
    assert Power2(16) == 16 * Power2(12);
  }

  function XorWords(a: word, b: word): (r: word)
    ensures XorWords(a, b) == Xor(a, b)
  {
    SixteenBits();
    XorRange(a, b, 16);
    Xor(a, b)
  }

  /** One bit of the bit-serial form. */
  function Round(x: word): word { if x % 2 == 1 then XorWords(x / 2, POLYNOMIAL) else x / 2 }

  function Rounds(x: word, n: nat): word
    decreases n
  {
    if n == 0 then x else Rounds(Round(x), n - 1)
  }

  /** The table-driven update by one byte. */
  function Step(fcs: word, b: byte): word {
    XorWords(fcs / 256, TableEntry(XorWords(fcs, b) % 256))
  }

  function Run(fcs: word, s: seq<byte>): word
    decreases |s|
  {
    if s == [] then fcs else Step(Run(fcs, s[..|s| - 1]), s[|s| - 1])
  }

  /** The check sequence that a sender appends to these bytes. */
  function Check(s: seq<byte>): word { XorWords(Run(INITIAL, s), 0xFFFF) }

  lemma {:induction false} RunSplit(fcs: word, s: seq<byte>, t: seq<byte>)
    ensures Run(fcs, s + t) == Run(Run(fcs, s), t)
    decreases |t|
  {
    hide Step;
    if t == [] {
      assert s + t == s;
    } else {
      assert (s + t)[..|s + t| - 1] == s + t[..|t| - 1];
      RunSplit(fcs, s, t[..|t| - 1]);
    }
  }

  // ---------------------------------------------------------------- the rounds are linear and injective

  lemma RoundIsLinear(x: word, y: word)
    ensures Round(XorWords(x, y)) == XorWords(Round(x), Round(y))
  {
    XorHalves(x, y);
    var p, q := x / 2, y / 2;
    XorAssociates(p, q, POLYNOMIAL);
    XorAssociates(p, POLYNOMIAL, q);
    XorAssociates(XorWords(p, POLYNOMIAL), q, POLYNOMIAL);
    XorCommutes(q, POLYNOMIAL);
    XorTwice(XorWords(p, q), POLYNOMIAL);
    XorAssociates(XorWords(p, POLYNOMIAL), POLYNOMIAL, q);
    hide Xor;
  }

  lemma {:induction false} RoundsAreLinear(x: word, y: word, n: nat)
    ensures Rounds(XorWords(x, y), n) == XorWords(Rounds(x, n), Rounds(y, n))
    decreases n
  {
    hide Round, Xor;
    if n > 0 {
      RoundIsLinear(x, y);
      RoundsAreLinear(Round(x), Round(y), n - 1);
    }
  }

  lemma XorZero(x: nat, y: nat)
    requires Xor(x, y) == 0
    ensures x == y
  {
    XorTwice(x, y);
  }

  /** Only zero has no round left in it. */
  lemma {:induction false} RoundsKeepNonZero(x: word, n: nat)
    requires Rounds(x, n) == 0
    ensures x == 0
    decreases n
  {
    if n > 0 {
      RoundsKeepNonZero(Round(x), n - 1);
      if x % 2 == 1 { XorZero(x / 2, POLYNOMIAL); }
    }
  }

  lemma RoundsAreInjective(x: word, y: word, n: nat)
    requires Rounds(x, n) == Rounds(y, n)
    ensures x == y
  {
    hide Rounds, Xor;
    RoundsAreLinear(x, y, n);
    XorSelf(Rounds(x, n));
    RoundsKeepNonZero(XorWords(x, y), n);
    XorZero(x, y);
  }

  // ---------------------------------------------------------------- the table refines the bit-serial form

  function Shift(x: nat, n: nat): nat { if n == 0 then x else 2 * Shift(x, n - 1) }

  lemma ShiftEight(x: nat)
    ensures Shift(x, 8) == 256 * x
  {
    assert Shift(x, 1) == 2 * x;
    assert Shift(x, 3) == 4 * Shift(x, 1);
    assert Shift(x, 5) == 4 * Shift(x, 3);
    assert Shift(x, 7) == 4 * Shift(x, 5);
  }

  lemma {:induction false} XorBelow(h: nat, l: nat, n: nat)
    requires l < Power2(n)
    ensures Xor(Shift(h, n), l) == Shift(h, n) + l
  {
    if n > 0 { XorBelow(h, l / 2, n - 1); }
  }

  /** A word is the exclusive or of its high and its low byte. */
  lemma HighAndLow(h: byte, l: byte)
    ensures XorWords(256 * h, l) == 256 * h + l
  {
    EightBits();
    ShiftEight(h);
    XorBelow(h, l, 8);
  }

  lemma {:induction false} RoundsOfShifted(h: byte, n: nat)
    requires n <= 8
    ensures Shift(h, n) <= 256 * h
    ensures Rounds(Shift(h, n), n) == h
  {
    ShiftAtMost(h, n);
    if n > 0 {
      ShiftAtMost(h, n - 1);
      RoundsOfShifted(h, n - 1);
      assert Round(Shift(h, n)) == Shift(h, n - 1);
    }
  }

  lemma {:induction false} ShiftAtMost(h: byte, n: nat)
    requires n <= 8
    ensures Shift(h, n) <= 256 * h
    decreases 8 - n
  {
    if n == 8 { ShiftEight(h); } else { ShiftAtMost(h, n + 1); }
  }

  lemma RoundsOfHigh(h: byte)
    ensures Rounds(256 * h, 8) == h
  {
    hide Rounds;
    ShiftEight(h);
    RoundsOfShifted(h, 8);
  }

  // ---------------------------------------------------------------- the entries of the table

  lemma OneStays(y: nat, p: nat)
    ensures Xor(y, 2 * p) == 2 * Xor(y / 2, p) + y % 2
  {
    XorStep(y, 2 * p);
    assert 2 * p / 2 == p && 2 * p % 2 == 0;
    hide Xor;
  }

  /** Three bits that the other number does not have stay as they are. */
  lemma ThreeStay(y: nat, p: nat)
    ensures Xor(y, 8 * p) == 8 * Xor(y / 8, p) + y % 8
  {
    hide Xor;
    OneStays(y, 4 * p);
    OneStays(y / 2, 2 * p);
    OneStays(y / 2 / 2, p);
    assert y / 2 / 2 / 2 == y / 8;
    assert y == 8 * (y / 8) + 4 * (y / 2 / 2 % 2) + 2 * (y / 2 % 2) + y % 2;
  }

  /** A word by its three bits 3, 10 and 15 and what lies between them. */
  function Compose(a: nat, b: nat, c: nat, d: nat, e: nat, f: nat): nat {
    a + 8 * (b + 2 * (c + 64 * (d + 2 * (e + 16 * f))))
  }

  predicate Fits(a: nat, b: nat, c: nat, d: nat, e: nat, f: nat) { a < 8 && b < 2 && c < 64 && d < 2 && e < 16 && f < 2 }

  lemma ComposedInverts(a: nat, b: nat, c: nat, d: nat, e: nat, f: nat)
    requires Fits(a, b, c, d, e, f)
    ensures Invert(Compose(a, b, c, d, e, f)) == Compose(a, 1 - b, c, 1 - d, e, 1 - f)
  {
    var y := Compose(a, b, c, d, e, f);
    assert y / 8 == b + 2 * (c + 64 * (d + 2 * (e + 16 * f)));
    assert y / 0x400 == d + 2 * (e + 16 * f);
    assert y / 0x8000 == f;
  }

  lemma HighXors(d: nat, e: nat, f: nat)
    requires d < 2 && e < 16 && f < 2
    ensures Xor(d + 2 * (e + 16 * f), 0x21) == 1 - d + 2 * (e + 16 * (1 - f))
  {
    hide Xor;
    var r := e + 16 * f;
    XorStep(d + 2 * r, 0x21);
    assert (d + 2 * r) / 2 == r;
    ThreeStay(r, 2);
    XorStep(r / 8, 2);
    XorStep(f, 1);
    XorSelf(0);
    assert r / 8 == e / 8 + 2 * f && r / 8 / 2 == f;
  }

  lemma ComposedXors(a: nat, b: nat, c: nat, d: nat, e: nat, f: nat)
    requires Fits(a, b, c, d, e, f)
    ensures Xor(Compose(a, b, c, d, e, f), 0x8408) == Compose(a, 1 - b, c, 1 - d, e, 1 - f)
  {
    hide Xor;
    var r := d + 2 * (e + 16 * f);
    var q := c + 64 * r;
    ThreeStay(Compose(a, b, c, d, e, f), 0x1081);
    assert Compose(a, b, c, d, e, f) / 8 == b + 2 * q;
    XorStep(b + 2 * q, 0x1081);
    assert (b + 2 * q) / 2 == q;
    ThreeStay(q, 0x108);
    assert q / 8 == c / 8 + 8 * r && q % 8 == c % 8;
    ThreeStay(q / 8, 0x21);
    assert q / 8 / 8 == r && q / 8 % 8 == c / 8;
    HighXors(d, e, f);
  }

  lemma Decompose(y: word) returns (a: nat, b: nat, c: nat, d: nat, e: nat, f: nat)
    ensures Fits(a, b, c, d, e, f) && y == Compose(a, b, c, d, e, f)
  {
    var p := y / 8;
    var q := p / 2;
    var r := q / 64;
    var t := r / 2;
    a, b, c, d, e, f := y % 8, p % 2, q % 64, r % 2, t % 16, t / 16;
  }

  /** Mixing the polynomial in inverts its three bits. */
  lemma PolynomialInverts(y: word)
    ensures XorWords(y, POLYNOMIAL) == Invert(y)
  {
    var a, b, c, d, e, f := Decompose(y);
    ComposedInverts(a, b, c, d, e, f);
    ComposedXors(a, b, c, d, e, f);
    hide Xor, Invert, Compose;
  }

  lemma RoundHalves(x: word)
    ensures Round(x) == Halve(x)
  {
    if x % 2 == 1 { PolynomialInverts(x / 2); }
    hide Xor, Invert;
  }

  lemma {:induction false} LastRound(x: word, n: nat)
    ensures Rounds(x, n + 1) == Round(Rounds(x, n))
    decreases n
  {
    hide Round;
    if n > 0 { LastRound(Round(x), n - 1); }
  }

  /** A single bit takes eight rounds to become the polynomial. */
  lemma TopBit()
    ensures Rounds(128, 8) == POLYNOMIAL
  {
    ShiftedOne();
    RoundsOfShifted(1, 7);
    LastRound(128, 7);
    hide Rounds, Shift;
  }

  lemma ShiftedOne()
    ensures Shift(1, 7) == 128
  {
    ShiftEight(1);
  }

  lemma TopAndRest(j: byte)
    requires j < 128
    ensures XorWords(128, j) == j + 128
  {
    EightBits();
    ShiftedOne();
    XorBelow(1, j, 7);
    hide Xor, Shift;
  }

  predicate IsRounds(i: byte) { TableEntry(i) == Rounds(i, 8) }

  lemma UpperIsRounds(j: byte)
    requires j < 128 && IsRounds(j)
    ensures IsRounds(j + 128)
  {
    UpperEntry(j);
    TopAndRest(j);
    TopBit();
    RoundsAreLinear(128, j, 8);
    XorCommutes(POLYNOMIAL, Rounds(j, 8));
    PolynomialInverts(Rounds(j, 8));
    hide Rounds, Xor, TableEntry, Invert;
  }

  lemma EvenRound(i: byte)
    requires i < 128
    ensures Rounds(2 * i, 8) == Rounds(i, 7)
  {
    assert Round(2 * i) == i;
    hide Round;
  }

  lemma LowerIsRounds(i: byte)
    requires i < 128 && IsRounds(2 * i)
    ensures IsRounds(i)
  {
    hide Rounds, TableEntry, Halve, Round;
    LowerEntry(i);
    EvenRound(i);
    LastRound(i, 7);
    RoundHalves(Rounds(i, 7));
  }

  predicate IsRoundsAt(q: nat, m: nat) { q * m < 256 ==> IsRounds(q * m) }

  ghost predicate MultiplesAreRounds(m: nat) { forall q: nat :: IsRoundsAt(q, m) }

  lemma Multiples(q: nat, m: nat, k: nat)
    requires m * k == 128
    ensures q * (2 * m) == 2 * (q * m)
    ensures if q < k then q * m < 128 else (q - k) * m == q * m - 128
  {
    if q < k { assert (k - q) * m == 128 - q * m && (k - q) * m >= m; }
  }

  /** From the multiples of a power of two to those of the next lower one. */
  lemma HalfTheStep(m: nat, k: nat)
    requires m * k == 128 && MultiplesAreRounds(2 * m)
    ensures MultiplesAreRounds(m)
  {
    hide IsRounds;
    forall q: nat
      ensures IsRoundsAt(q, m)
    {
      var low := if q < k then q else q - k;
      Multiples(q, m, k);
      Multiples(low, m, k);
      assert IsRoundsAt(low, 2 * m);
      LowerMultiple(low * m, low * (2 * m));
      if q >= k && q * m < 256 { UpperIsRounds(low * m); }
    }
  }

  lemma LowerMultiple(v: nat, w: nat)
    requires w == 2 * v && (w < 256 ==> IsRounds(w))
    ensures v < 128 ==> IsRounds(v)
  {
    hide IsRounds;
    if v < 128 { LowerIsRounds(v); }
  }

  lemma {:induction false} ZeroRounds(n: nat)
    ensures Rounds(0, n) == 0
  {
    if n > 0 { ZeroRounds(n - 1); }
  }

  lemma ZeroIsRounds()
    ensures IsRounds(0)
  {
    hide TableEntry, Rounds;
    FirstEntry();
    ZeroRounds(8);
  }

  lemma OnlyZero()
    ensures MultiplesAreRounds(256)
  {
    hide IsRounds;
    ZeroIsRounds();
    forall q: nat
      ensures IsRoundsAt(q, 256)
    {
      assert q * 256 < 256 ==> q == 0;
    }
  }

  /** Every entry of the table is eight rounds over its index. */
  lemma TableIsRounds(i: byte)
    ensures TableEntry(i) == Rounds(i, 8)
  {
    hide TableEntry, Rounds, MultiplesAreRounds;
    OnlyZero();
    HalfTheStep(128, 1);
    HalfTheStep(64, 2);
    HalfTheStep(32, 4);
    HalfTheStep(16, 8);
    HalfTheStep(8, 16);
    HalfTheStep(4, 32);
    HalfTheStep(2, 64);
    HalfTheStep(1, 128);
    AllMultiples(i);
  }

  lemma AllMultiples(i: byte)
    requires MultiplesAreRounds(1)
    ensures IsRounds(i)
  {
    hide IsRounds;
    assert IsRoundsAt(i, 1);
  }

  /** Eight rounds over a word: the high byte comes down, the low byte selects a table entry. */
  lemma RoundsByTable(h: byte, l: byte)
    ensures Rounds(256 * h + l, 8) == XorWords(h, TableEntry(l))
  {
    hide Rounds, Xor, TableEntry;
    TableIsRounds(l);
    HighAndLow(h, l);
    RoundsAreLinear(256 * h, l, 8);
    RoundsOfHigh(h);
  }

  /** Mixing a byte into a word leaves the high byte alone. */
  lemma XorKeepsHigh(fcs: word, b: byte)
    ensures XorWords(fcs, b) == 256 * (fcs / 256) + XorBytes(fcs % 256, b)
  {
    hide Xor;
    var h, l := fcs / 256, fcs % 256;
    HighAndLow(h, l);
    XorAssociates(256 * h, l, b);
    HighAndLow(h, XorBytes(l, b));
  }

  /** The table-driven update is eight rounds of the bit-serial one. */
  lemma StepIsBitSerial(fcs: word, b: byte)
    ensures Step(fcs, b) == Rounds(XorWords(fcs, b), 8)
  {
    hide Rounds, Xor, TableEntry;
    XorKeepsHigh(fcs, b);
    RoundsByTable(fcs / 256, XorBytes(fcs % 256, b));
  }

  // ---------------------------------------------------------------- what the check sequence detects

  lemma StepInjectiveInState(x: word, y: word, b: byte)
    requires Step(x, b) == Step(y, b)
    ensures x == y
  {
    hide Rounds, Xor, Step;
    StepIsBitSerial(x, b);
    StepIsBitSerial(y, b);
    RoundsAreInjective(XorWords(x, b), XorWords(y, b), 8);
    XorTwice(x, b);
    XorTwice(y, b);
  }

  lemma {:induction false} RunInjectiveInState(x: word, y: word, s: seq<byte>)
    requires Run(x, s) == Run(y, s)
    ensures x == y
    decreases |s|
  {
    hide Step;
    if s != [] {
      var front := s[..|s| - 1];
      StepInjectiveInState(Run(x, front), Run(y, front), s[|s| - 1]);
      RunInjectiveInState(x, y, front);
    }
  }

  /** Two updates mix both bytes into the word at once. */
  lemma TwoSteps(fcs: word, low: byte, high: byte)
    ensures Step(Step(fcs, low), high) == Rounds(Rounds(XorWords(fcs, 256 * high + low), 8), 8)
  {
    hide Rounds, Xor, Step;
    var x := XorWords(fcs, low);
    StepIsBitSerial(fcs, low);
    StepIsBitSerial(Rounds(x, 8), high);
    RoundsOfHigh(high);
    RoundsAreLinear(x, 256 * high, 8);
    XorAssociates(fcs, low, 256 * high);
    XorCommutes(low, 256 * high);
    HighAndLow(high, low);
  }

  function Pair(w: word): seq<byte> { [w % 256, w / 256] }

  lemma RunPair(fcs: word, w: word)
    ensures Run(fcs, Pair(w)) == Step(Step(fcs, w % 256), w / 256)
  {
    hide Step;
    var one := [w % 256];
    assert Pair(w)[..1] == one && one[..0] == [];
    assert Run(fcs, one) == Step(fcs, w % 256);
  }

  /** Messages that differ only in one 16-bit field never share a check sequence. */
  lemma FieldChangesCheck(front: seq<byte>, v: word, w: word, back: seq<byte>)
    requires v != w
    ensures Check(front + Pair(v) + back) != Check(front + Pair(w) + back)
  {
    hide Rounds, Xor, Step, Run;
    var start := Run(INITIAL, front);
    forall x: word
      ensures Run(INITIAL, front + Pair(x) + back) == Run(Run(start, Pair(x)), back)
    {
      RunSplit(INITIAL, front + Pair(x), back);
      RunSplit(INITIAL, front, Pair(x));
    }
    var a, b := Run(INITIAL, front + Pair(v) + back), Run(INITIAL, front + Pair(w) + back);
    XorTwice(a, 0xFFFF);
    XorTwice(b, 0xFFFF);
    if a == b {
      RunInjectiveInState(Run(start, Pair(v)), Run(start, Pair(w)), back);
      PairIsInjective(start, v, w);
    }
  }

  lemma StepInjectiveInByte(x: word, b: byte, c: byte)
    requires Step(x, b) == Step(x, c)
    ensures b == c
  {
    hide Rounds, Xor, Step;
    StepIsBitSerial(x, b);
    StepIsBitSerial(x, c);
    RoundsAreInjective(XorWords(x, b), XorWords(x, c), 8);
    XorInjective(x, b, c);
  }

  /** Nor do messages that differ only in one byte. */
  lemma ByteChangesCheck(front: seq<byte>, b: byte, c: byte, back: seq<byte>)
    requires b != c
    ensures Check(front + [b] + back) != Check(front + [c] + back)
  {
    hide Rounds, Xor, Step, Run;
    var start := Run(INITIAL, front);
    forall x: byte
      ensures Run(INITIAL, front + [x] + back) == Run(Step(start, x), back)
    {
      RunSplit(INITIAL, front + [x], back);
      RunSplit(INITIAL, front, [x]);
      RunOne(start, x);
    }
    var v, w := Run(INITIAL, front + [b] + back), Run(INITIAL, front + [c] + back);
    XorTwice(v, 0xFFFF);
    XorTwice(w, 0xFFFF);
    if v == w {
      RunInjectiveInState(Step(start, b), Step(start, c), back);
      StepInjectiveInByte(start, b, c);
    }
  }

  lemma RunOne(fcs: word, b: byte)
    ensures Run(fcs, [b]) == Step(fcs, b)
  {
    assert [b][..0] == [];
    assert Run(fcs, []) == fcs;
    hide Step;
  }

  lemma PairIsInjective(start: word, v: word, w: word)
    requires Run(start, Pair(v)) == Run(start, Pair(w))
    ensures v == w
  {
    hide Rounds, Xor, Step, Run;
    RunPair(start, v);
    RunPair(start, w);
    TwoSteps(start, v % 256, v / 256);
    TwoSteps(start, w % 256, w / 256);
    RoundsAreInjective(Rounds(XorWords(start, v), 8), Rounds(XorWords(start, w), 8), 8);
    RoundsAreInjective(XorWords(start, v), XorWords(start, w), 8);
    XorInjective(start, v, w);
  }

  // ---------------------------------------------------------------- the check value

  lemma NextByte(s: seq<byte>, n: nat, b: byte, fcs: word, index: byte, entry: word, next: word)
    requires n < |s| && s[n] == b && Run(INITIAL, s[..n]) == fcs && XorBytes(fcs % 256, b) == index && TableEntry(index) == entry
    requires XorBytes(entry % 256, fcs / 256) == next % 256 && entry / 256 == next / 256
    ensures Run(INITIAL, s[..n + 1]) == next
  {
    hide Xor, TableEntry;
    assert s[..n + 1][..n] == s[..n];
    XorKeepsHigh(fcs, b);
    XorKeepsHigh(entry, fcs / 256);
    XorCommutes(entry, fcs / 256);
  }

  lemma ThreeEntries()
    ensures TableEntry(0xce) == 0x2f72 && TableEntry(0xbf) == 0x4d7c && TableEntry(0x60) == 0x6306
  {}

  lemma ThreeMore()
    ensures TableEntry(0x7f) == 0x8b70 && TableEntry(0x26) == 0x4434 && TableEntry(0x89) == 0x19c9
  {}

  lemma LastThree()
    ensures TableEntry(0xba) == 0x1ad1 && TableEntry(0xf0) == 0xf78f && TableEntry(0xac) == 0x6f66
  {}

  /** The digits 1 to 9. */
  predicate IsDigits(s: seq<byte>) {
    && |s| == 9 && s[0] == 0x31 && s[1] == 0x32 && s[2] == 0x33 && s[3] == 0x34
    && s[4] == 0x35 && s[5] == 0x36 && s[6] == 0x37 && s[7] == 0x38 && s[8] == 0x39
  }

  lemma FirstThreeDigits(s: seq<byte>)
    requires IsDigits(s) && Run(INITIAL, s[..0]) == 0xffff
    ensures Run(INITIAL, s[..3]) == 0x634b
  {
    hide Run, Xor, TableEntry;
    ThreeEntries();
    BinaryXor(1, 1, 1, 1, 1, 1, 1, 1, 0, 0, 1, 1, 0, 0, 0, 1);
    BinaryXor(0, 1, 1, 1, 0, 0, 1, 0, 1, 1, 1, 1, 1, 1, 1, 1);
    NextByte(s, 0, 0x31, 0xffff, 0xce, 0x2f72, 0x2f8d);
    BinaryXor(1, 0, 0, 0, 1, 1, 0, 1, 0, 0, 1, 1, 0, 0, 1, 0);
    BinaryXor(0, 1, 1, 1, 1, 1, 0, 0, 0, 0, 1, 0, 1, 1, 1, 1);
    NextByte(s, 1, 0x32, 0x2f8d, 0xbf, 0x4d7c, 0x4d53);
    BinaryXor(0, 1, 0, 1, 0, 0, 1, 1, 0, 0, 1, 1, 0, 0, 1, 1);
    BinaryXor(0, 0, 0, 0, 0, 1, 1, 0, 0, 1, 0, 0, 1, 1, 0, 1);
    NextByte(s, 2, 0x33, 0x4d53, 0x60, 0x6306, 0x634b);
  }

  lemma SixDigits(s: seq<byte>)
    requires IsDigits(s) && Run(INITIAL, s[..3]) == 0x634b
    ensures Run(INITIAL, s[..6]) == 0x198d
  {
    hide Run, Xor, TableEntry;
    ThreeMore();
    BinaryXor(0, 1, 0, 0, 1, 0, 1, 1, 0, 0, 1, 1, 0, 1, 0, 0);
    BinaryXor(0, 1, 1, 1, 0, 0, 0, 0, 0, 1, 1, 0, 0, 0, 1, 1);
    NextByte(s, 3, 0x34, 0x634b, 0x7f, 0x8b70, 0x8b13);
    BinaryXor(0, 0, 0, 1, 0, 0, 1, 1, 0, 0, 1, 1, 0, 1, 0, 1);
    BinaryXor(0, 0, 1, 1, 0, 1, 0, 0, 1, 0, 0, 0, 1, 0, 1, 1);
    NextByte(s, 4, 0x35, 0x8b13, 0x26, 0x4434, 0x44bf);
    BinaryXor(1, 0, 1, 1, 1, 1, 1, 1, 0, 0, 1, 1, 0, 1, 1, 0);
    BinaryXor(1, 1, 0, 0, 1, 0, 0, 1, 0, 1, 0, 0, 0, 1, 0, 0);
    NextByte(s, 5, 0x36, 0x44bf, 0x89, 0x19c9, 0x198d);
  }

  lemma NineDigits(s: seq<byte>)
    requires IsDigits(s) && Run(INITIAL, s[..6]) == 0x198d
    ensures Run(INITIAL, s[..9]) == 0x6f91
  {
    hide Run, Xor, TableEntry;
    LastThree();
    BinaryXor(1, 0, 0, 0, 1, 1, 0, 1, 0, 0, 1, 1, 0, 1, 1, 1);
    BinaryXor(1, 1, 0, 1, 0, 0, 0, 1, 0, 0, 0, 1, 1, 0, 0, 1);
    NextByte(s, 6, 0x37, 0x198d, 0xba, 0x1ad1, 0x1ac8);
    BinaryXor(1, 1, 0, 0, 1, 0, 0, 0, 0, 0, 1, 1, 1, 0, 0, 0);
    BinaryXor(1, 0, 0, 0, 1, 1, 1, 1, 0, 0, 0, 1, 1, 0, 1, 0);
    NextByte(s, 7, 0x38, 0x1ac8, 0xf0, 0xf78f, 0xf795);
    BinaryXor(1, 0, 0, 1, 0, 1, 0, 1, 0, 0, 1, 1, 1, 0, 0, 1);
    BinaryXor(0, 1, 1, 0, 0, 1, 1, 0, 1, 1, 1, 1, 0, 1, 1, 1);
    NextByte(s, 8, 0x39, 0xf795, 0xac, 0x6f66, 0x6f91);
  }

  /** The check value of the digits 1 to 9, which depends on the initial value and on the final complement. */
  lemma CheckOfDigits()
    ensures Check([0x31, 0x32, 0x33, 0x34, 0x35, 0x36, 0x37, 0x38, 0x39]) == 0x906E
  {
    hide Run, Xor, TableEntry;
    var s: seq<byte> := [0x31, 0x32, 0x33, 0x34, 0x35, 0x36, 0x37, 0x38, 0x39];
    NoBytes();
    assert s[..0] == [];
    FirstThreeDigits(s);
    SixDigits(s);
    NineDigits(s);
    assert s[..9] == s;
    Complement(0x6f91, 0x906E);
  }

  lemma NoBytes()
    ensures Run(INITIAL, []) == 0xFFFF
  {}

  lemma Complement(x: word, y: word)
    requires x + y == 0xFFFF
    ensures XorWords(x, 0xFFFF) == y
  {
    SixteenBits();
    XorAll(x, 16);
    hide Xor, Power2;
  }

  /** The complement of a number of `n` bits. */
  lemma {:induction false} XorAll(x: nat, n: nat)
    requires x < Power2(n)
    ensures Xor(x, Power2(n) - 1) == Power2(n) - 1 - x
  {
    if n > 0 {
      XorAll(x / 2, n - 1);
      XorStep(x, Power2(n) - 1);
      assert (Power2(n) - 1) / 2 == Power2(n - 1) - 1;
    }
  }
}
