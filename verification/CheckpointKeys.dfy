/**
 The text form of a checkpoint's last key: a decimal rowid, or for SpotDataX three decimal
 numbers joined by colons.
 */
module CheckpointKeys {
  import opened Wrappers
  import opened Keyset

  const I64_MIN: int := -0x8000_0000_0000_0000
  const I64_MAX: int := 0x7fff_ffff_ffff_ffff

  predicate IsI64(n: int) { I64_MIN <= n <= I64_MAX }

  predicate IsDigit(c: char) { '0' <= c <= '9' }

  function Digit(d: nat): (c: char)
    requires d < 10
    ensures IsDigit(c) && c as int - '0' as int == d
  {
    ('0' as int + d) as char
  }

  function Digits(n: nat): (s: string)
    ensures s != [] && forall i | 0 <= i < |s| :: IsDigit(s[i])
  {
    if n < 10 then [Digit(n)] else Digits(n / 10) + [Digit(n % 10)]
  }

  /** Decimal text of an integer, as the formatter writes it. */
  function Show(n: int): string {
    if n < 0 then "-" + Digits(-n) else Digits(n)
  }

  function DigitsValue(s: string): (n: int)
    requires forall i | 0 <= i < |s| :: IsDigit(s[i])
  {
    if s == [] then 0
    else
      assert IsDigit(s[|s| - 1]);
      10 * DigitsValue(s[..|s| - 1]) + (s[|s| - 1] as int - '0' as int)
  }

  predicate AllDigits(s: string) { s != [] && forall i | 0 <= i < |s| :: IsDigit(s[i]) }

  /** Signed 64-bit parsing: an optional sign, at least one digit, no overflow. */
  function ParseI64(s: string): (r: Option<int>)
    ensures r.Some? ==> IsI64(r.value)
  {
    var negative := s != [] && s[0] == '-';
    var digits := if s != [] && (s[0] == '-' || s[0] == '+') then s[1..] else s;
    if !AllDigits(digits) then None
    else
      var n: int := if negative then -DigitsValue(digits) else DigitsValue(digits);
      if IsI64(n) then Some(n) else None
  }

  lemma {:induction false} DigitsRoundTrip(n: nat)
    ensures DigitsValue(Digits(n)) == n
  {
    if n >= 10 {
      DigitsRoundTrip(n / 10);
      assert Digits(n)[..|Digits(n)| - 1] == Digits(n / 10);
    } else {
      assert Digits(n) == [Digit(n)];
      assert DigitsValue([]) == 0;
      assert [Digit(n)][..0] == [];
    }
  }

  lemma ShowRoundTrip(n: int)
    requires IsI64(n)
    ensures ParseI64(Show(n)) == Some(n)
  {
    DigitsRoundTrip(if n < 0 then -n else n);
    if n < 0 {
      assert Show(n)[1..] == Digits(-n);
    } else {
      assert IsDigit(Show(n)[0]);
    }
  }

  lemma ShowHasNoColon(n: int)
    ensures ':' !in Show(n) && Show(n) != []
  {
  }

  /** Splitting at every colon; the empty text has one empty part. */
  function Split(s: string): (parts: seq<string>)
    ensures parts != []
  {
    if s == [] then [""]
    else
      var rest := Split(s[1..]);
      if s[0] == ':' then [""] + rest else [[s[0]] + rest[0]] + rest[1..]
  }

  lemma {:induction false} SplitPlain(s: string)
    requires ':' !in s
    ensures Split(s) == [s]
  {
    if s != [] {
      SplitPlain(s[1..]);
      assert s == [s[0]] + s[1..];
    }
  }

  lemma {:induction false} SplitAtColon(head: string, tail: string)
    requires ':' !in head
    ensures Split(head + ":" + tail) == [head] + Split(tail)
  {
    var s := head + ":" + tail;
    if head == [] {
      assert s[1..] == tail;
    } else {
      assert s[1..] == head[1..] + ":" + tail;
      SplitAtColon(head[1..], tail);
      assert head == [head[0]] + head[1..];
    }
  }

  function InitialSpotDataX(): Key { Key(I64_MIN, I64_MIN, I64_MIN) }

  function EncodeSpotDataX(k: Key): string {
    Show(k.a) + ":" + Show(k.b) + ":" + Show(k.c)
  }

  function ParseSpotDataX(s: string): Option<Key> {
    if s == "" || s == "0" then Some(InitialSpotDataX())
    else
      var parts := Split(s);
      if |parts| != 3 then None
      else
        match (ParseI64(parts[0]), ParseI64(parts[1]), ParseI64(parts[2]))
        case (Some(a), Some(b), Some(c)) => Some(Key(a, b, c))
        case _ => None
  }

  lemma SplitInThree(a: string, b: string, c: string)
    requires ':' !in a && ':' !in b && ':' !in c
    ensures Split(a + ":" + b + ":" + c) == [a, b, c]
    ensures a + ":" + b + ":" + c != "" && a + ":" + b + ":" + c != "0"
  {
    var tail := b + ":" + c;
    var s := a + ":" + b + ":" + c;
    assert s == a + ":" + tail;
    assert s[|a|] == ':';
    SplitAtColon(a, tail);
    SplitAtColon(b, c);
    SplitPlain(c);
    hide Split;
  }

  /** Parsing undoes encoding for every composite key, the initial one included. */
  lemma SpotDataXRoundTrip(k: Key)
    requires IsI64(k.a) && IsI64(k.b) && IsI64(k.c)
    ensures ParseSpotDataX(EncodeSpotDataX(k)) == Some(k)
  {
    hide Show, Split, ParseI64;
    ShowHasNoColon(k.a);
    ShowHasNoColon(k.b);
    ShowHasNoColon(k.c);
    SplitInThree(Show(k.a), Show(k.b), Show(k.c));
    ShowRoundTrip(k.a);
    ShowRoundTrip(k.b);
    ShowRoundTrip(k.c);
  }
}
