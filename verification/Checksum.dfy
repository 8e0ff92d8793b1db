/**
 The verifier's streaming checksum: rows serialised with tags, lengths and terminators into an
 FNV-1a state of 64 bits, and the sampling of a table's rows.
 */
module Checksum {
  import opened Bits
  import opened Wrappers

  type Value = Option<seq<byte>>
  type TableRow = seq<Value>

  const MODULUS: int := 0x1_0000_0000_0000_0000
  const PRIME: int := 0x0000_0100_0000_01b3
  const OFFSET_BASIS: int := 0xcbf2_9ce4_8422_2325

  // ---------------------------------------------------------------- the byte stream of a table

  /** A 64-bit length, most significant byte first. */
  function BigEndian(n: int, width: nat): (s: seq<byte>)
    ensures |s| == width
    decreases width
  {
    if width == 0 then [] else BigEndian(n / 256, width - 1) + [n % 256]
  }

  function FromBigEndian(s: seq<byte>): (n: int)
    ensures n >= 0
  {
    if s == [] then 0 else 256 * FromBigEndian(s[..|s| - 1]) + s[|s| - 1]
  }

  function Power256(width: nat): int { if width == 0 then 1 else 256 * Power256(width - 1) }

  function EncodeValue(v: Value): seq<byte> {
    if v.None? then [0] else [1] + BigEndian(|v.value|, 8) + v.value
  }

  function EncodeValues(row: TableRow): seq<byte> {
    if row == [] then [] else EncodeValue(row[0]) + EncodeValues(row[1..])
  }

  function EncodeRow(row: TableRow): seq<byte> { EncodeValues(row) + [0xff] }

  function EncodeTable(rows: seq<TableRow>): seq<byte> {
    if rows == [] then [] else EncodeRow(rows[0]) + EncodeTable(rows[1..])
  }

  // ---------------------------------------------------------------- decoding

  datatype Parsed<T> = Parsed(result: T, rest: seq<byte>)

  /** Reads values up to the row terminator. */
  function DecodeRow(s: seq<byte>): (r: Option<Parsed<TableRow>>)
    ensures r.Some? ==> |r.value.rest| < |s|
    decreases |s|
  {
    if s == [] then None
    else if s[0] == 0xff then Some(Parsed([], s[1..]))
    else if s[0] == 0 then
      match DecodeRow(s[1..])
      case Some(p) => Some(Parsed([Option.None] + p.result, p.rest))
      case None => None
    else if s[0] == 1 && |s| >= 9 && 9 + FromBigEndian(s[1..9]) <= |s| then
      var end := 9 + FromBigEndian(s[1..9]);
      match DecodeRow(s[end..])
      case Some(p) => Some(Parsed([Some(s[9..end])] + p.result, p.rest))
      case None => None
    else None
  }

  function DecodeTable(s: seq<byte>): Option<seq<TableRow>>
    decreases |s|
  {
    if s == [] then Some([])
    else
      match DecodeRow(s)
      case None => None
      case Some(p) =>
        match DecodeTable(p.rest)
        case None => None
        case Some(rows) => Some([p.result] + rows)
  }

  /** Every text is shorter than the 64-bit length field allows. */
  predicate LengthsFit(row: TableRow) {
    forall i | 0 <= i < |row| && row[i].Some? :: |row[i].value| < MODULUS
  }

  lemma {:induction false} BigEndianRoundTrip(n: int, width: nat)
    requires 0 <= n < Power256(width)
    ensures FromBigEndian(BigEndian(n, width)) == n
  {
    if width > 0 {
      BigEndianRoundTrip(n / 256, width - 1);
      assert BigEndian(n, width)[..width - 1] == BigEndian(n / 256, width - 1);
    }
  }

  lemma EightBytes()
    ensures Power256(8) == MODULUS
  {
    assert Power256(4) == 0x1_0000_0000;
    assert Power256(8) == 256 * 256 * 256 * 256 * Power256(4);
  }

  lemma DecodeText(text: seq<byte>, tail: seq<byte>)
    requires |text| < MODULUS && DecodeRow(tail).Some?
    ensures var p := DecodeRow(tail).value;
            DecodeRow(EncodeValue(Some(text)) + tail) == Some(Parsed([Some(text)] + p.result, p.rest))
  {
    EightBytes();
    BigEndianRoundTrip(|text|, 8);
    DecodeAfterLength(text, BigEndian(|text|, 8), tail);
  }

  lemma DecodeAfterLength(text: seq<byte>, length: seq<byte>, tail: seq<byte>)
    requires |length| == 8 && FromBigEndian(length) == |text| && DecodeRow(tail).Some?
    ensures var p := DecodeRow(tail).value;
            DecodeRow([1] + length + text + tail) == Some(Parsed([Some(text)] + p.result, p.rest))
  {
    hide FromBigEndian;
    var s := [1] + length + text + tail;
    assert s[1..9] == length;
    assert s[9..9 + |text|] == text;
    assert s[9 + |text|..] == tail;
  }

  lemma {:induction false} DecodeRowUndoesEncode(row: TableRow, rest: seq<byte>)
    requires LengthsFit(row)
    ensures DecodeRow(EncodeRow(row) + rest) == Some(Parsed(row, rest))
  {
    hide BigEndian, FromBigEndian;
    var s := EncodeRow(row) + rest;
    if row == [] {
      assert s == [0xff] + rest;
    } else {
      var tail := EncodeRow(row[1..]) + rest;
      assert s == EncodeValue(row[0]) + tail by { hide EncodeValue; }
      DecodeRowUndoesEncode(row[1..], rest);
      assert row == [row[0]] + row[1..];
      if row[0].None? {
        assert s[1..] == tail;
      } else {
        hide DecodeRow;
        DecodeText(row[0].value, tail);
      }
    }
  }

  /** The stream of a table is uniquely decodable into its rows. */
  lemma {:induction false} DecodeUndoesEncode(rows: seq<TableRow>)
    requires forall i | 0 <= i < |rows| :: LengthsFit(rows[i])
    ensures DecodeTable(EncodeTable(rows)) == Some(rows)
  {
    if rows != [] {
      DecodeRowUndoesEncode(rows[0], EncodeTable(rows[1..]));
      DecodeUndoesEncode(rows[1..]);
      assert rows == [rows[0]] + rows[1..];
    }
  }

  // ---------------------------------------------------------------- the hash

  type state = h: int | 0 <= h < MODULUS

  /** Exclusive or of the state with a byte touches its lowest eight bits only. */
  function XorByte(h: state, b: byte): state {
    assert h / 256 < 0x100_0000_0000_0000;
    h / 256 * 256 + XorBytes(h % 256, b)
  }

  function Step(h: state, b: byte): state { XorByte(h, b) * PRIME % MODULUS }

  function Fnv(h: state, s: seq<byte>): state
    decreases |s|
  {
    if s == [] then h else Step(Fnv(h, s[..|s| - 1]), s[|s| - 1])
  }

  lemma LetterXor()
    ensures XorByte(OFFSET_BASIS, 0x61) == 0xcbf2_9ce4_8422_2344
  {
    hide Xor;
    BinaryXor(0, 0, 1, 0, 0, 1, 0, 1, 0, 1, 1, 0, 0, 0, 0, 1);
    hide XorBytes;
    LowByte(OFFSET_BASIS, 0xcb_f29c_e484_2223, 0x25);
  }

  lemma LowByte(n: int, q: int, r: int)
    requires 0 <= r < 256 && n == q * 256 + r
    ensures n % 256 == r && n / 256 == q
  {}

  lemma LowWord(n: int, q: int, r: int)
    requires 0 <= r < MODULUS && n == q * MODULUS + r
    ensures n % MODULUS == r
  {}

  lemma HashStep()
    ensures Step(OFFSET_BASIS, 0x61) == 0xaf63_dc4c_8601_ec8c
  {
    LetterXor();
    hide XorByte;
    var x := 0xcbf2_9ce4_8422_2344;
    assert x * PRIME == 0xcb_f29c_e5de * MODULUS + 0xaf63_dc4c_8601_ec8c;
    LowWord(x * PRIME, 0xcb_f29c_e5de, 0xaf63_dc4c_8601_ec8c);
  }

  /** The published 64-bit hash of the letter a. */
  lemma HashOfOneLetter()
    ensures Fnv(OFFSET_BASIS, [0x61]) == 0xaf63_dc4c_8601_ec8c
  {
    HashStep();
    assert [0x61 as byte][..0] == [];
    assert Fnv(OFFSET_BASIS, []) == OFFSET_BASIS;
    hide Step;
  }

  /** The prime's inverse modulo the state size. */
  const INVERSE: int := 0xce96_5057_aff6_957b
  const QUOTIENT: int := 0xce_9650_590f

  /** The step before: multiply by the prime's inverse, then undo the exclusive or. */
  function StepBack(h: state, b: byte): state { XorByte(h * INVERSE % MODULUS, b) }

  lemma XorByteTwice(h: state, b: byte)
    ensures XorByte(XorByte(h, b), b) == h
  {
    XorTwice(h % 256, b);
    hide Xor;
    assert XorByte(h, b) % 256 == XorBytes(h % 256, b) && XorByte(h, b) / 256 == h / 256;
  }

  /** Multiplying by a number and then by its inverse restores every residue. */
  lemma InverseUndoes(x: int, p: int, inverse: int, quotient: int, m: int)
    requires 0 <= x < m && p * inverse == quotient * m + 1
    ensures (x * p % m) * inverse % m == x
  {
    var q, r := x * p / m, x * p % m;
    assert x * p == q * m + r;
    calc {
      r * inverse;
      (x * p - q * m) * inverse;
      x * p * inverse - q * m * inverse;
      { assert x * p * inverse == x * (p * inverse); }
      x * (quotient * m + 1) - q * m * inverse;
      x + m * (x * quotient - q * inverse);
    }
    AddMultiple(x, x * quotient - q * inverse, m);
  }

  lemma AddMultiple(x: int, k: int, m: int)
    requires 0 <= x < m
    ensures (x + m * k) % m == x
  {
    var y := x + m * k;
    var q := y / m;
    assert y == m * q + y % m;
    assert m * (q - k) == x - y % m;
    SmallMultiple(m, q - k);
  }

  lemma SmallMultiple(m: int, d: int)
    requires m > 0 && -m < m * d < m
    ensures d == 0
  {
    if d >= 1 {
      AtLeastOnce(m, d);
    } else if d <= -1 {
      AtLeastOnce(m, -d);
    }
  }

  lemma {:induction false} AtLeastOnce(m: int, d: int)
    requires m > 0 && d >= 1
    ensures m * d >= m && m * -d <= -m
    decreases d
  {
    if d > 1 {
      AtLeastOnce(m, d - 1);
      assert m * d == m * (d - 1) + m;
      assert m * -d == m * -(d - 1) - m;
    }
  }

  lemma MultiplyBack(x: state)
    ensures (x * PRIME % MODULUS) * INVERSE % MODULUS == x
  {
    InverseUndoes(x, PRIME, INVERSE, QUOTIENT, MODULUS);
  }

  /** Each step is a bijection on states: it can be undone from the byte alone. */
  lemma StepIsBijective(h: state, b: byte)
    ensures StepBack(Step(h, b), b) == h
  {
    hide XorByte;
    MultiplyBack(XorByte(h, b));
    XorByteTwice(h, b);
  }

  lemma {:induction false} FnvIsInjective(h: state, h': state, s: seq<byte>)
    requires h != h'
    ensures Fnv(h, s) != Fnv(h', s)
    decreases |s|
  {
    hide Step, StepBack;
    if s != [] {
      var front, last := s[..|s| - 1], s[|s| - 1];
      FnvIsInjective(h, h', front);
      StepIsBijective(Fnv(h, front), last);
      StepIsBijective(Fnv(h', front), last);
    }
  }

  lemma XorByteInjective(h: state, b: byte, c: byte)
    requires b != c
    ensures XorByte(h, b) != XorByte(h, c)
  {
    if Xor(h % 256, b) == Xor(h % 256, c) { XorInjective(h % 256, b, c); }
    hide Xor;
  }

  /** From one state, different bytes lead to different states. */
  lemma DifferentBytesDiffer(h: state, b: byte, c: byte)
    requires b != c
    ensures Step(h, b) != Step(h, c)
  {
    hide XorByte;
    XorByteInjective(h, b, c);
    MultiplyBack(XorByte(h, b));
    MultiplyBack(XorByte(h, c));
  }

  lemma {:induction false} FnvSplit(h: state, s: seq<byte>, t: seq<byte>)
    ensures Fnv(h, s + t) == Fnv(Fnv(h, s), t)
    decreases |t|
  {
    hide Step;
    if t == [] {
      assert s + t == s;
    } else {
      assert (s + t)[..|s + t| - 1] == s + t[..|t| - 1];
      FnvSplit(h, s, t[..|t| - 1]);
    }
  }

  /** Two streams of equal length that differ in exactly one byte have different checksums. */
  lemma OneByteChangesChecksum(h: state, front: seq<byte>, b: byte, c: byte, back: seq<byte>)
    requires b != c
    ensures Fnv(h, front + [b] + back) != Fnv(h, front + [c] + back)
  {
    hide Step;
    FnvSplit(h, front + [b], back);
    FnvSplit(h, front + [c], back);
    FnvSplit(h, front, [b]);
    FnvSplit(h, front, [c]);
    var before := Fnv(h, front);
    assert [b][..0] == [] && [c][..0] == [];
    DifferentBytesDiffer(before, b, c);
    FnvIsInjective(Step(before, b), Step(before, c), back);
  }

  // ---------------------------------------------------------------- one changed text byte

  lemma {:induction false} EncodeValuesSplit(a: TableRow, b: TableRow)
    ensures EncodeValues(a + b) == EncodeValues(a) + EncodeValues(b)
  {
    if a == [] {
      assert a + b == b;
    } else {
      assert (a + b)[0] == a[0] && (a + b)[1..] == a[1..] + b;
      EncodeValuesSplit(a[1..], b);
    }
  }

  lemma {:induction false} EncodeTableSplit(a: seq<TableRow>, b: seq<TableRow>)
    ensures EncodeTable(a + b) == EncodeTable(a) + EncodeTable(b)
  {
    if a == [] {
      assert a + b == b;
    } else {
      assert (a + b)[0] == a[0] && (a + b)[1..] == a[1..] + b;
      EncodeTableSplit(a[1..], b);
    }
  }

  lemma EncodeRowAround(a: TableRow, text: seq<byte>, z: TableRow)
    ensures EncodeRow(a + [Some(text)] + z) ==
            EncodeValues(a) + [1] + BigEndian(|text|, 8) + text + EncodeValues(z) + [0xff]
  {
    EncodeValuesSplit(a + [Some(text)], z);
    EncodeValuesSplit(a, [Some(text)]);
    OneValue(Some(text));
    hide EncodeValues, BigEndian;
    Regroup(EncodeValues(a), BigEndian(|text|, 8), text, EncodeValues(z));
  }

  lemma Regroup(a: seq<byte>, length: seq<byte>, text: seq<byte>, z: seq<byte>)
    ensures a + ([1] + length + text) + z + [0xff] == a + [1] + length + text + z + [0xff]
  {
    assert a + ([1] + length + text) == a + [1] + length + text;
  }

  lemma OneValue(v: Value)
    ensures EncodeValues([v]) == EncodeValue(v)
  {
    hide EncodeValue;
    assert [v][1..] == [];
  }

  lemma EncodeTableAround(above: seq<TableRow>, row: TableRow, below: seq<TableRow>)
    ensures EncodeTable(above + [row] + below) == EncodeTable(above) + EncodeRow(row) + EncodeTable(below)
  {
    EncodeTableSplit(above + [row], below);
    EncodeTableSplit(above, [row]);
    assert [row][1..] == [];
    assert EncodeTable([row]) == EncodeRow(row);
  }

  /** Changing one byte of one text anywhere in a table changes the table's checksum. */
  lemma OneTextByteIsDetected(above: seq<TableRow>, left: TableRow, u: seq<byte>, b: byte, c: byte, v: seq<byte>,
                              right: TableRow, below: seq<TableRow>)
    requires b != c
    ensures Fnv(OFFSET_BASIS, EncodeTable(above + [left + [Some(u + [b] + v)] + right] + below)) !=
            Fnv(OFFSET_BASIS, EncodeTable(above + [left + [Some(u + [c] + v)] + right] + below))
  {
    hide Fnv, BigEndian;
    var front := EncodeTable(above) + EncodeValues(left) + [1] + BigEndian(|u| + 1 + |v|, 8) + u;
    var back := v + EncodeValues(right) + [0xff] + EncodeTable(below);
    TextAround(above, left, u, b, v, right, below);
    TextAround(above, left, u, c, v, right, below);
    OneByteChangesChecksum(OFFSET_BASIS, front, b, c, back);
  }

  lemma TextAround(above: seq<TableRow>, left: TableRow, u: seq<byte>, b: byte, v: seq<byte>,
                   right: TableRow, below: seq<TableRow>)
    ensures EncodeTable(above + [left + [Some(u + [b] + v)] + right] + below) ==
            (EncodeTable(above) + EncodeValues(left) + [1] + BigEndian(|u| + 1 + |v|, 8) + u) + [b]
            + (v + EncodeValues(right) + [0xff] + EncodeTable(below))
  {
    hide BigEndian;
    var text := u + [b] + v;
    EncodeTableAround(above, left + [Some(text)] + right, below);
    EncodeRowAround(left, text, right);
    hide *;
  }
}
