/**
 The octet stuffing of a Bluetooth L2 packet (HDLC-like framing, RFC 1662 section 4.2), the writer
 of outgoing frames and the search for a packet id whose check sequence may be sent unescaped.
 */
module Framing {
  import opened Bits
  import opened Fcs
  import opened FcsTable

  type dword = x: int | 0 <= x < 0x1_0000_0000

  const FLAG: byte := 0x7E
  const ESCAPE: byte := 0x7D
  const SIGNATURE: seq<byte> := [0xFF, 0x03, 0x60, 0x65]
  const APP_SUSYID: word := 125

  predicate MustEscape(b: byte) { b == 0x7D || b == 0x7E || b == 0x11 || b == 0x12 || b == 0x13 }

  function EscapeByte(b: byte): seq<byte> { if MustEscape(b) then [ESCAPE, XorBytes(b, 0x20)] else [b] }

  function Escape(s: seq<byte>): seq<byte> { if s == [] then [] else EscapeByte(s[0]) + Escape(s[1..]) }

  function Unescape(s: seq<byte>): seq<byte>
    decreases |s|
  {
    if s == [] then []
    else if s[0] == ESCAPE && |s| > 1 then [XorBytes(s[1], 0x20)] + Unescape(s[2..])
    else [s[0]] + Unescape(s[1..])
  }

  lemma UnescapePlain(b: byte, rest: seq<byte>)
    requires b != ESCAPE || rest == []
    ensures Unescape([b] + rest) == [b] + Unescape(rest)
  {
    hide Xor;
    assert ([b] + rest)[1..] == rest;
  }

  lemma UnescapePair(c: byte, rest: seq<byte>)
    ensures Unescape([ESCAPE, c] + rest) == [XorBytes(c, 0x20)] + Unescape(rest)
  {
    hide Xor;
    assert ([ESCAPE, c] + rest)[2..] == rest;
  }

  method UnescapeBytes(escaped: seq<byte>) returns (out: seq<byte>)
    ensures out == Unescape(escaped)
  {
    UnescapeEnds(escaped);
    hide Unescape, XorBytes;
    out := [];
    var i := 0;
    assert escaped[0..] == escaped;
    while i < |escaped|
      invariant 0 <= i <= |escaped| && out + Unescape(escaped[i..]) == Unescape(escaped)
    {
      UnescapeStep(escaped, i);
      if escaped[i] == 0x7D && i + 1 < |escaped| {
        out := out + [XorBytes(escaped[i + 1], 0x20)];
        i := i + 2;
      } else {
        out := out + [escaped[i]];
        i := i + 1;
      }
    }
  }

  lemma UnescapeEnds(s: seq<byte>)
    ensures Unescape(s[|s|..]) == []
  {}

  lemma UnescapeStep(s: seq<byte>, i: nat)
    requires i < |s|
    ensures Unescape(s[i..]) ==
            if s[i] == ESCAPE && i + 1 < |s| then [XorBytes(s[i + 1], 0x20)] + Unescape(s[i + 2..])
            else [s[i]] + Unescape(s[i + 1..])
  {
    hide XorBytes;
    assert i + 1 < |s| ==> s[i..][2..] == s[i + 2..];
    assert s[i..][1..] == s[i + 1..];
  }

  // ---------------------------------------------------------------- stuffing round trips

  lemma EscapedByteIsPlain(b: byte)
    requires MustEscape(b)
    ensures !MustEscape(XorBytes(b, 0x20)) && XorBytes(XorBytes(b, 0x20), 0x20) == b
  {
    XorTwice(b, 0x20);
    StuffedBytes();
    hide Xor;
  }

  lemma StuffedBytes()
    ensures XorBytes(0x7D, 0x20) == 0x5D && XorBytes(0x7E, 0x20) == 0x5E
    ensures XorBytes(0x11, 0x20) == 0x31 && XorBytes(0x12, 0x20) == 0x32 && XorBytes(0x13, 0x20) == 0x33
  {
    hide Xor;
    BinaryXor(0, 1, 1, 1, 1, 1, 0, 1, 0, 0, 1, 0, 0, 0, 0, 0);
    BinaryXor(0, 1, 1, 1, 1, 1, 1, 0, 0, 0, 1, 0, 0, 0, 0, 0);
    BinaryXor(0, 0, 0, 1, 0, 0, 0, 1, 0, 0, 1, 0, 0, 0, 0, 0);
    BinaryXor(0, 0, 0, 1, 0, 0, 1, 0, 0, 0, 1, 0, 0, 0, 0, 0);
    BinaryXor(0, 0, 0, 1, 0, 0, 1, 1, 0, 0, 1, 0, 0, 0, 0, 0);
  }

  lemma {:induction false} UnescapeUndoesEscape(s: seq<byte>, tail: seq<byte>)
    ensures Unescape(Escape(s) + tail) == s + Unescape(tail)
  {
    hide Unescape, Xor, XorBytes;
    if s == [] {
      assert Escape(s) + tail == tail;
    } else {
      var rest := Escape(s[1..]) + tail;
      assert Escape(s) + tail == EscapeByte(s[0]) + rest;
      UnescapeUndoesEscape(s[1..], tail);
      if MustEscape(s[0]) {
        EscapedByteIsPlain(s[0]);
        UnescapePair(XorBytes(s[0], 0x20), rest);
      } else {
        UnescapePlain(s[0], rest);
      }
    }
  }

  lemma {:induction false} EscapedIsPlain(s: seq<byte>)
    ensures forall b | b in Escape(s) :: b == ESCAPE || !MustEscape(b)
  {
    if s != [] {
      EscapedIsPlain(s[1..]);
      if MustEscape(s[0]) { EscapedByteIsPlain(s[0]); }
      hide Xor, XorBytes, MustEscape;
    }
  }

  /** A stuffed payload holds neither the flag nor a flow control byte. */
  lemma EscapeHasNoFlag(s: seq<byte>)
    ensures FLAG !in Escape(s) && forall b | b in Escape(s) :: b !in {0x7E, 0x11, 0x12, 0x13}
  {
    EscapedIsPlain(s);
    hide Escape;
  }

  lemma {:induction false} EscapeSplit(s: seq<byte>, t: seq<byte>)
    ensures Escape(s + t) == Escape(s) + Escape(t)
  {
    if s == [] {
      assert s + t == t;
    } else {
      assert (s + t)[1..] == s[1..] + t;
      EscapeSplit(s[1..], t);
    }
  }

  /** A packet on the wire: the flag, the stuffed body, its check sequence unstuffed, the flag. */
  function WirePacket(body: seq<byte>): seq<byte> { [FLAG] + Escape(body) + Pair(Check(body)) + [FLAG] }

  /** What the receiver is to make of it. */
  function PlainPacket(body: seq<byte>): seq<byte> { [FLAG] + body + Pair(Check(body)) + [FLAG] }

  /** The check sequence may travel unescaped. */
  predicate Clean(w: word) {
    w % 256 != 0x7D && w % 256 != 0x7E && w / 256 != 0x7D && w / 256 != 0x7E
  }

  /** Unescaping a whole packet restores it exactly when neither check byte is the escape byte. */
  lemma PacketRoundTrip(body: seq<byte>)
    ensures Unescape(WirePacket(body)) == PlainPacket(body) <==>
            ESCAPE !in Pair(Check(body))
  {
    hide Unescape, Check, Escape;
    var lo, hi := Check(body) % 256, Check(body) / 256;
    var tail := [lo, hi, FLAG];
    assert WirePacket(body) == [FLAG] + (Escape(body) + tail);
    UnescapePlain(FLAG, Escape(body) + tail);
    UnescapeUndoesEscape(body, tail);
    UnescapeTail(lo, hi);
    Regroup(body, Unescape(tail));
    Regroup(body, tail);
  }

  lemma Regroup(body: seq<byte>, tail: seq<byte>)
    ensures [FLAG] + (body + tail) == ([FLAG] + body) + tail
  {}

  lemma UnescapeTail(lo: byte, hi: byte)
    ensures |Unescape([lo, hi, FLAG])| == 3 <==> lo != ESCAPE && hi != ESCAPE
    ensures Unescape([lo, hi, FLAG]) == [lo, hi, FLAG] <==> lo != ESCAPE && hi != ESCAPE
  {
    assert [FLAG][1..] == [];
    assert Unescape([FLAG]) == [FLAG];
    hide Unescape;
    if lo == ESCAPE {
      UnescapePair(hi, [FLAG]);
      assert [ESCAPE, hi] + [FLAG] == [lo, hi, FLAG];
    } else {
      UnescapePlain(lo, [hi, FLAG]);
      assert [lo] + [hi, FLAG] == [lo, hi, FLAG];
      if hi == ESCAPE {
        UnescapePair(FLAG, []);
        assert [ESCAPE, FLAG] + [] == [hi, FLAG];
        UnescapeNothing();
      } else {
        UnescapePlain(hi, [FLAG]);
        assert [hi] + [FLAG] == [hi, FLAG];
      }
    }
  }

  lemma UnescapeNothing()
    ensures Unescape([]) == []
  {}

  /** The receiver's check over an unescaped packet. */
  predicate ValidateFcs(p: seq<byte>) {
    |p| >= 5 && Check(p[1..|p| - 3]) == Word(p[|p| - 3], p[|p| - 2])
  }

  function Word(lo: int, hi: int): int { lo + 256 * hi }

  lemma PlainPacketValidates(body: seq<byte>)
    requires body != []
    ensures ValidateFcs(PlainPacket(body))
  {
    hide Check;
    var p := PlainPacket(body);
    assert p[1..|p| - 3] == body;
  }

  /** A packet in which one byte of the body differs from what was checked is refused. */
  lemma ChangedByteIsRefused(front: seq<byte>, b: byte, c: byte, back: seq<byte>)
    ensures ValidateFcs([FLAG] + (front + [c] + back) + Pair(Check(front + [b] + back)) + [FLAG]) <==> b == c
  {
    hide Check;
    var body, check := front + [c] + back, Check(front + [b] + back);
    var p := [FLAG] + body + Pair(check) + [FLAG];
    assert p[1..|p| - 3] == body;
    if b != c { ByteChangesCheck(front, b, c, back); }
  }

  // ---------------------------------------------------------------- writing frames

  function Quad(v: dword): seq<byte> {
    [v % 256, v / 0x100 % 256, v / 0x1_0000 % 256, v / 0x100_0000]
  }

  datatype Addressing = Addressing(longwords: byte, ctrl: byte, ctrl2: word, susyId: word, serial: dword,
                                   appSerial: dword)

  /** Everything of the L2 header before the packet id. */
  function HeaderStart(a: Addressing): seq<byte> {
    SIGNATURE + [a.longwords] + [a.ctrl] + Pair(a.susyId) + Quad(a.serial) + Pair(a.ctrl2) + Pair(APP_SUSYID)
    + Quad(a.appSerial) + Pair(a.ctrl2) + Pair(0) + Pair(0)
  }

  function Tagged(id: word): word { if id < 0x8000 then id + 0x8000 else id }

  function Body(a: Addressing, id: word, payload: seq<byte>): seq<byte> {
    HeaderStart(a) + Pair(Tagged(id)) + payload
  }

  /** The L1 header with the frame's length and its check byte. */
  function L1Header(length: word, local: seq<byte>, dest: seq<byte>, control: word): seq<byte> {
    [FLAG] + Pair(length) + [XorBytes(XorBytes(FLAG, length % 256), length / 256)] + local + dest + Pair(control)
  }

  /** The header announces the frame's own length and checks itself; every byte behind it is as written. */
  predicate IsFinished(frame: seq<byte>, buf: seq<byte>) {
    && |frame| == |buf| >= 4
    && frame[0] == buf[0] && frame[4..] == buf[4..]
    && Word(frame[1], frame[2]) == |frame| % 65536
    && frame[3] == XorBytes(XorBytes(frame[0], frame[1]), frame[2])
  }

  class FrameWriter {
    var buf: seq<byte>
    var fcs: word

    constructor (control: word, local: seq<byte>, dest: seq<byte>)
      ensures buf == [FLAG, 0, 0, 0] + local + dest + Pair(control) && fcs == INITIAL
    {
      buf := [FLAG, 0, 0, 0] + local + dest + Pair(control);
      fcs := INITIAL;
    }

    method Byte(v: byte)
      modifies this
      ensures buf == old(buf) + EscapeByte(v) && fcs == Step(old(fcs), v)
    {
      fcs := XorWords(fcs / 256, TableEntry(XorWords(fcs, v) % 256));
      if v == 0x7D || v == 0x7E || v == 0x11 || v == 0x12 || v == 0x13 {
        buf := buf + [0x7D] + [XorBytes(v, 0x20)];
      } else {
        buf := buf + [v];
      }
    }

    method Array(bytes: seq<byte>)
      modifies this
      ensures buf == old(buf) + Escape(bytes) && fcs == Run(old(fcs), bytes)
    {
      hide Step, EscapeByte;
      var i := 0;
      assert bytes[..0] == [];
      while i < |bytes|
        invariant 0 <= i <= |bytes|
        invariant buf == old(buf) + Escape(bytes[..i]) && fcs == Run(old(fcs), bytes[..i])
      {
        assert bytes[..i + 1] == bytes[..i] + [bytes[i]];
        EscapeSplit(bytes[..i], [bytes[i]]);
        EscapeOne(bytes[i]);
        assert bytes[..i + 1][..i] == bytes[..i];
        Byte(bytes[i]);
        i := i + 1;
      }
      assert bytes[..i] == bytes;
    }

    method Short(v: word)
      modifies this
      ensures buf == old(buf) + Escape(Pair(v)) && fcs == Run(old(fcs), Pair(v))
    {
      Array([v % 256, v / 256]);
    }

    method Long(v: dword)
      modifies this
      ensures buf == old(buf) + Escape(Quad(v)) && fcs == Run(old(fcs), Quad(v))
    {
      Array([v % 256, v / 0x100 % 256, v / 0x1_0000 % 256, v / 0x100_0000]);
    }

    method L2Header(a: Addressing, id: word)
      modifies this
      ensures buf == old(buf) + [FLAG] + Escape(HeaderStart(a) + Pair(Tagged(id)))
      ensures fcs == Run(old(fcs), HeaderStart(a) + Pair(Tagged(id)))
    {
      hide Escape, Run, Pair, Quad;
      buf := buf + [FLAG];
      ghost var b, f := buf, fcs;
      Array(SIGNATURE);
      Array([a.longwords]);
      WriteMore(b, f, SIGNATURE, [a.longwords]);
      Array([a.ctrl]);
      WriteMore(b, f, SIGNATURE + [a.longwords], [a.ctrl]);
      Short(a.susyId);
      WriteMore(b, f, SIGNATURE + [a.longwords] + [a.ctrl], Pair(a.susyId));
      ghost var w := SIGNATURE + [a.longwords] + [a.ctrl] + Pair(a.susyId);
      Long(a.serial);
      WriteMore(b, f, w, Quad(a.serial));
      w := w + Quad(a.serial);
      Short(a.ctrl2);
      WriteMore(b, f, w, Pair(a.ctrl2));
      w := w + Pair(a.ctrl2);
      Short(APP_SUSYID);
      WriteMore(b, f, w, Pair(APP_SUSYID));
      w := w + Pair(APP_SUSYID);
      Long(a.appSerial);
      WriteMore(b, f, w, Quad(a.appSerial));
      w := w + Quad(a.appSerial);
      Short(a.ctrl2);
      WriteMore(b, f, w, Pair(a.ctrl2));
      w := w + Pair(a.ctrl2);
      Short(0);
      WriteMore(b, f, w, Pair(0));
      w := w + Pair(0);
      Short(0);
      WriteMore(b, f, w, Pair(0));
      w := w + Pair(0);
      Short(if id < 0x8000 then id + 0x8000 else id);
      WriteMore(b, f, w, Pair(Tagged(id)));
    }

    method Trailer()
      modifies this
      ensures buf == old(buf) + Pair(XorWords(old(fcs), 0xFFFF)) + [FLAG] && fcs == old(fcs)
    {
      var check := XorWords(fcs, 0xFFFF);
      buf := buf + [check % 256] + [check / 256] + [FLAG];
    }

    method Finish() returns (frame: seq<byte>)
      requires |buf| >= 4
      ensures IsFinished(frame, buf)
    {
      var length := |buf| % 65536;
      frame := buf[1 := length % 256];
      frame := frame[2 := length / 256];
      frame := frame[3 := XorBytes(XorBytes(frame[0], frame[1]), frame[2])];
    }
  }

  /** A finished header in front of these bytes is the level-1 header with their length. */
  lemma FinishedHeader(frame: seq<byte>, buf: seq<byte>, local: seq<byte>, dest: seq<byte>, control: word, rest: seq<byte>)
    requires buf == [FLAG, 0, 0, 0] + local + dest + Pair(control) + rest && IsFinished(frame, buf)
    ensures frame == L1Header(|buf| % 65536, local, dest, control) + rest
  {
    hide Xor, XorBytes;
    var head := L1Header(|buf| % 65536, local, dest, control) + rest;
    assert forall k | 4 <= k < |buf| :: frame[k] == frame[4..][k - 4] && buf[k] == buf[4..][k - 4];
    assert forall k | 4 <= k < |buf| :: head[k] == buf[k];
    assert frame[0] == head[0] && frame[1] == head[1] && frame[2] == head[2];
  }

  lemma WriteMore(start: seq<byte>, fcs: word, bytes: seq<byte>, more: seq<byte>)
    ensures start + Escape(bytes + more) == start + Escape(bytes) + Escape(more)
    ensures Run(fcs, bytes + more) == Run(Run(fcs, bytes), more)
  {
    hide Escape, Run;
    EscapeSplit(bytes, more);
    RunSplit(fcs, bytes, more);
  }

  lemma EscapeOne(b: byte)
    ensures Escape([b]) == EscapeByte(b)
  {
    hide EscapeByte;
    assert [b][1..] == [];
  }
}
