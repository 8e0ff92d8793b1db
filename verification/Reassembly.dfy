/**
 Receiving Bluetooth packets: an L2 packet may be cut over several L1 frames, whose bodies are
 gathered still escaped until the closing flag arrives.
 */
module Reassembly {
  import opened Bits
  import opened Fcs
  import opened Framing
  import opened Wrappers

  const WILDCARD_CMD: int := 0xFF

  datatype RecvPacket = RecvPacket(buf: seq<byte>, source: seq<byte>, command: int, isL2: bool, fcsOk: bool)

  /** What one call returns, and the bytes that are left to read. */
  datatype Outcome = Outcome(packet: Option<RecvPacket>, rest: seq<byte>)

  /** The L2 bytes gathered so far, none when no packet is in flight, and the command that opened it. */
  datatype Link = Link(l2: seq<byte>, opening: int)

  function FrameSize(h: seq<byte>): nat
    requires |h| >= 18
  {
    var pkLen := Word(h[1], h[2]);
    if pkLen > 18 then pkLen else 18
  }

  /** A complete L1 frame: as long as its header says. */
  predicate IsFrame(f: seq<byte>) { |f| >= 18 && FrameSize(f) == |f| }

  function Source(f: seq<byte>): seq<byte>
    requires |f| >= 18
  {
    f[4..10]
  }

  function Command(f: seq<byte>): int
    requires |f| >= 18
  {
    Word(f[16], f[17])
  }

  function BodyOf(f: seq<byte>): seq<byte>
    requires |f| >= 18
  {
    f[18..]
  }

  predicate StartsL2(body: seq<byte>) { |body| > 4 && body[0] == FLAG && body[1..5] == SIGNATURE }

  predicate Closed(l2: seq<byte>) { |l2| > 5 && l2[|l2| - 1] == FLAG }

  function Absorb(link: Link, f: seq<byte>): Link
    requires |f| >= 18
  {
    if StartsL2(BodyOf(f)) then Link(BodyOf(f), Command(f))
    else if link.l2 != [] then Link(link.l2 + BodyOf(f), link.opening)
    else link
  }

  predicate ValidSender(sender: seq<byte>, source: seq<byte>)
    requires |sender| == |source| == 6
  {
    forall i | 0 <= i < 6 :: sender[i] == source[i] || sender[i] == 0xFF
  }

  function PacketOf(f: seq<byte>, l2: seq<byte>): RecvPacket
    requires |f| >= 18
  {
    if l2 == [] then RecvPacket(f, Source(f), Command(f), false, true)
    else RecvPacket(Unescape(l2), Source(f), Command(f), true, ValidateFcs(Unescape(l2)))
  }

  /** Whether the packet that frame `f` completed is the one the caller waits for. */
  predicate Accepts(sender: seq<byte>, wait4cmd: int, f: seq<byte>, isL2: bool, opening: int)
    requires |sender| == 6 && |f| >= 18
  {
    wait4cmd == WILDCARD_CMD ||
    (ValidSender(sender, Source(f)) && (Command(f) == wait4cmd || (isL2 && opening == wait4cmd)))
  }

  /**
   Reads frames until one completes a packet the caller waits for. A read that times out has
   consumed, and loses, what had arrived of its frame.
   */
  function Receive(stream: seq<byte>, sender: seq<byte>, wait4cmd: int, link: Link): (r: Outcome)
    requires |sender| == 6
    ensures r.packet.Some? ==> |r.rest| < |stream|
    decreases |stream|, 0
  {
    if |stream| < 18 || |stream| < FrameSize(stream) then Outcome(None, [])
    else
      var f, rest := stream[..FrameSize(stream)], stream[FrameSize(stream)..];
      var next := Absorb(link, f);
      if next.l2 == [] || Closed(next.l2) then Deliver(f, next, rest, sender, wait4cmd)
      else Receive(rest, sender, wait4cmd, next)
  }

  function Deliver(f: seq<byte>, link: Link, rest: seq<byte>, sender: seq<byte>, wait4cmd: int): (r: Outcome)
    requires |sender| == 6 && |f| >= 18
    ensures r.packet.Some? ==> |r.rest| <= |rest|
    decreases |rest|, 1
  {
    if Accepts(sender, wait4cmd, f, link.l2 != [], link.opening) then Outcome(Some(PacketOf(f, link.l2)), rest)
    else Receive(rest, sender, wait4cmd, Link([], link.opening))
  }

  // ---------------------------------------------------------------- sequences of frames

  predicate AreFrames(frames: seq<seq<byte>>) { forall i | 0 <= i < |frames| :: IsFrame(frames[i]) }

  function Join(frames: seq<seq<byte>>): seq<byte> { if frames == [] then [] else frames[0] + Join(frames[1..]) }

  function Bodies(frames: seq<seq<byte>>): seq<byte>
    requires AreFrames(frames)
  {
    if frames == [] then [] else BodyOf(frames[0]) + Bodies(frames[1..])
  }

  /** The frames carry exactly these bytes; the first holds the signature, the last is not empty. */
  predicate IsCut(frames: seq<seq<byte>>, packet: seq<byte>) {
    && frames != []
    && AreFrames(frames)
    && Bodies(frames) == packet
    && |BodyOf(frames[0])| >= 5
    && BodyOf(frames[|frames| - 1]) != []
  }

  /** The flag closes the packet and stands nowhere else behind the opening one. */
  predicate FlagOnlyAtEnds(packet: seq<byte>) {
    |packet| > 1 && packet[|packet| - 1] == FLAG && FLAG !in packet[1..|packet| - 1]
  }

  lemma ReceiveFrame(f: seq<byte>, rest: seq<byte>, sender: seq<byte>, wait4cmd: int, link: Link)
    requires |sender| == 6 && IsFrame(f)
    ensures var next := Absorb(link, f);
            Receive(f + rest, sender, wait4cmd, link) ==
            if next.l2 == [] || Closed(next.l2) then Deliver(f, next, rest, sender, wait4cmd)
            else Receive(rest, sender, wait4cmd, next)
  {
    hide Absorb, Deliver, Closed;
    var stream := f + rest;
    assert FrameSize(stream) == FrameSize(f);
    assert stream[..|f|] == f && stream[|f|..] == rest;
  }

  lemma {:induction false} LastBodyEndsBodies(frames: seq<seq<byte>>)
    requires AreFrames(frames) && frames != [] && BodyOf(frames[|frames| - 1]) != []
    ensures |Bodies(frames)| > 0
    ensures |frames| > 1 ==> |Bodies(frames[1..])| > 0
  {
    if |frames| > 1 {
      assert frames[1..][|frames| - 2] == frames[|frames| - 1];
      LastBodyEndsBodies(frames[1..]);
    }
  }

  lemma JoinFirst(frames: seq<seq<byte>>, rest: seq<byte>)
    requires frames != []
    ensures Join(frames) + rest == frames[0] + (Join(frames[1..]) + rest)
  {}

  /** The continuation frames of an opened packet complete it exactly at the last one. */
  lemma {:induction false} GatherContinuations(frames: seq<seq<byte>>, packet: seq<byte>, rest: seq<byte>,
                                               sender: seq<byte>, wait4cmd: int, link: Link)
    requires |sender| == 6 && |link.l2| >= 5 && FlagOnlyAtEnds(packet)
    requires frames != [] && AreFrames(frames) && BodyOf(frames[|frames| - 1]) != []
    requires packet == link.l2 + Bodies(frames)
    ensures Receive(Join(frames) + rest, sender, wait4cmd, link) ==
            Deliver(frames[|frames| - 1], Link(packet, link.opening), rest, sender, wait4cmd)
    decreases |frames|
  {
    hide Receive, Deliver, Absorb, Closed, FlagOnlyAtEnds, FrameSize;
    var f, tail := frames[0], frames[1..];
    LastBodyEndsBodies(frames);
    JoinFirst(frames, rest);
    ReceiveFrame(f, Join(tail) + rest, sender, wait4cmd, link);
    ContinuationIsAppended(f, Bodies(tail), packet, link);
    var next := Link(link.l2 + BodyOf(f), link.opening);
    if tail == [] {
      assert Join(tail) + rest == rest && Bodies(tail) == [] && BodyOf(f) + [] == BodyOf(f);
    } else {
      assert tail[|tail| - 1] == frames[|frames| - 1];
      Associate(link.l2, BodyOf(f), Bodies(tail));
      GatherContinuations(tail, packet, rest, sender, wait4cmd, next);
    }
  }

  lemma Associate(a: seq<byte>, b: seq<byte>, c: seq<byte>)
    ensures a + (b + c) == (a + b) + c
  {}

  lemma ContinuationIsAppended(f: seq<byte>, more: seq<byte>, packet: seq<byte>, link: Link)
    requires IsFrame(f) && |link.l2| >= 5 && FlagOnlyAtEnds(packet)
    requires packet == link.l2 + (BodyOf(f) + more) && (more != [] || BodyOf(f) != [])
    ensures Absorb(link, f) == Link(link.l2 + BodyOf(f), link.opening)
    ensures Closed(link.l2 + BodyOf(f)) <==> more == []
  {
    var inner, n, body := packet[1..|packet| - 1], |link.l2|, BodyOf(f);
    if |body| > 4 { assert inner[n - 1] == packet[n] == body[0] != FLAG; }
    if more != [] {
      assert (link.l2 + body)[n + |body| - 1] == inner[n + |body| - 2];
    }
  }

  /**
   Whatever way a packet is cut into frames, and whatever an unfinished packet before it left
   behind, its last frame delivers exactly the packet's bytes.
   */
  lemma CutPacketIsDelivered(frames: seq<seq<byte>>, packet: seq<byte>, rest: seq<byte>,
                             sender: seq<byte>, wait4cmd: int, link: Link)
    requires |sender| == 6 && StartsL2(packet) && FlagOnlyAtEnds(packet) && IsCut(frames, packet)
    ensures Receive(Join(frames) + rest, sender, wait4cmd, link) ==
            Deliver(frames[|frames| - 1], Link(packet, Command(frames[0])), rest, sender, wait4cmd)
  {
    hide Receive, Deliver;
    var f, tail := frames[0], frames[1..];
    JoinFirst(frames, rest);
    ReceiveFrame(f, Join(tail) + rest, sender, wait4cmd, link);
    OpeningIsTaken(f, Bodies(tail), packet, link);
    if tail == [] {
      assert Join(tail) + rest == rest && BodyOf(f) == packet;
    } else {
      LastBodyEndsBodies(frames);
      assert tail[|tail| - 1] == frames[|frames| - 1];
      GatherContinuations(tail, packet, rest, sender, wait4cmd, Link(BodyOf(f), Command(f)));
    }
  }

  lemma OpeningIsTaken(f: seq<byte>, more: seq<byte>, packet: seq<byte>, link: Link)
    requires IsFrame(f) && StartsL2(packet) && FlagOnlyAtEnds(packet)
    requires packet == BodyOf(f) + more && |BodyOf(f)| >= 5
    ensures Absorb(link, f) == Link(BodyOf(f), Command(f))
    ensures Closed(BodyOf(f)) <==> more == []
  {
    var inner, body := packet[1..|packet| - 1], BodyOf(f);
    assert body[1..5] == packet[1..5];
    assert packet[4] == packet[1..5][3];
    if more != [] {
      assert body[|body| - 1] == inner[|body| - 2];
    }
  }

  // ---------------------------------------------------------------- what a sender wrote is received

  lemma WirePacketStarts(body: seq<byte>)
    requires SIGNATURE <= body
    ensures StartsL2(WirePacket(body)) && Closed(WirePacket(body))
  {
    hide Check, Escape;
    SignatureIsPlain(body);
    assert WirePacket(body)[1..5] == Escape(body)[..4];
  }

  lemma WirePacketShape(body: seq<byte>)
    requires SIGNATURE <= body && Clean(Check(body))
    ensures StartsL2(WirePacket(body)) && FlagOnlyAtEnds(WirePacket(body))
  {
    hide Check, Escape;
    var p, lo, hi := WirePacket(body), Check(body) % 256, Check(body) / 256;
    WirePacketStarts(body);
    EscapeHasNoFlag(body);
    assert p[1..|p| - 1] == Escape(body) + [lo, hi];
  }

  lemma SignatureIsPlain(body: seq<byte>)
    requires SIGNATURE <= body
    ensures SIGNATURE <= Escape(body)
  {
    var tail := body[4..];
    assert body == SIGNATURE + tail;
    EscapeSplit(SIGNATURE, tail);
    assert SIGNATURE[1..] == [0x03, 0x60, 0x65] && SIGNATURE[1..][1..] == [0x60, 0x65];
    assert [0x60, 0x65 as byte][1..] == [0x65] && [0x65 as byte][1..] == [];
    assert Escape([0x60, 0x65]) == [0x60, 0x65];
    assert Escape(SIGNATURE) == SIGNATURE;
    hide Escape;
  }

  /** A packet whose check sequence is clean is received as written, with a valid check, under every cut. */
  lemma PacketSurvivesAnyCut(body: seq<byte>, frames: seq<seq<byte>>, rest: seq<byte>,
                             sender: seq<byte>, wait4cmd: int, link: Link)
    requires |sender| == 6 && SIGNATURE <= body && Clean(Check(body)) && IsCut(frames, WirePacket(body))
    ensures var last, opening := frames[|frames| - 1], Command(frames[0]);
            Receive(Join(frames) + rest, sender, wait4cmd, link) ==
            if Accepts(sender, wait4cmd, last, true, opening)
            then Outcome(Some(RecvPacket(PlainPacket(body), Source(last), Command(last), true, true)), rest)
            else Receive(rest, sender, wait4cmd, Link([], opening))
  {
    WirePacketShape(body);
    CutPacketIsDelivered(frames, WirePacket(body), rest, sender, wait4cmd, link);
    PacketRoundTrip(body);
    PlainPacketValidates(body);
    hide Receive, Check, WirePacket, PlainPacket, Unescape, ValidateFcs, IsCut, Accepts;
  }

  /** The byte of an address, or any byte where the address has 0xFF. */
  predicate IsFrom(source: seq<byte>, address: seq<byte>) {
    |source| == |address| == 6 && forall i | 0 <= i < 6 :: source[i] == address[i] || address[i] == 0xFF
  }

  /**
   A clean packet is returned exactly when any packet is waited for, or when its last frame is from the
   sender and its first or its last frame carries the awaited command; any other is passed over.
   */
  lemma AwaitedPacketIsReturned(body: seq<byte>, frames: seq<seq<byte>>, rest: seq<byte>, sender: seq<byte>, wait4cmd: int,
                                link: Link)
    requires |sender| == 6 && SIGNATURE <= body && Clean(Check(body)) && IsCut(frames, WirePacket(body))
    ensures var first, last := frames[0], frames[|frames| - 1];
            var returned := Outcome(Some(RecvPacket(PlainPacket(body), Source(last), Command(last), true, true)), rest);
            var isAwaited := wait4cmd == 0xFF
                             || (IsFrom(Source(last), sender) && (Command(first) == wait4cmd || Command(last) == wait4cmd));
            && (isAwaited ==> Receive(Join(frames) + rest, sender, wait4cmd, link) == returned)
            && (!isAwaited ==> Receive(Join(frames) + rest, sender, wait4cmd, link) ==
                               Receive(rest, sender, wait4cmd, Link([], Command(first))))
  {
    hide Receive, Check, WirePacket, PlainPacket, Command;
    PacketSurvivesAnyCut(body, frames, rest, sender, wait4cmd, link);
  }

  // ---------------------------------------------------------------- exactly which packets survive

  function FrameAround(body: seq<byte>): seq<byte>
    requires |body| + 18 < 65536
  {
    L1Header(|body| + 18, seq(6, _ => 0), seq(6, _ => 0), 1) + body
  }

  lemma FrameAroundIsFrame(body: seq<byte>)
    requires |body| + 18 < 65536
    ensures IsFrame(FrameAround(body)) && BodyOf(FrameAround(body)) == body
  {
    hide Xor, XorBytes;
    var f, n := FrameAround(body), |body| + 18;
    assert f[1] == n % 256 && f[2] == n / 256;
  }

  /** A caller that takes any packet from anyone receives this packet as it was written. */
  predicate ReceivedAsWritten(frames: seq<seq<byte>>, body: seq<byte>) {
    var r := Receive(Join(frames), seq(6, _ => 0xFF), WILDCARD_CMD, Link([], 0));
    r.packet.Some? && r.packet.value.buf == PlainPacket(body)
  }

  ghost predicate SurvivesEveryCut(body: seq<byte>) {
    forall frames | IsCut(frames, WirePacket(body)) :: ReceivedAsWritten(frames, body)
  }

  /** A frame that opens a packet and also ends with a flag is delivered at once. */
  lemma ClosedFirstFrame(frames: seq<seq<byte>>, body: seq<byte>)
    requires frames != [] && IsFrame(frames[0])
    requires StartsL2(BodyOf(frames[0])) && Closed(BodyOf(frames[0]))
    ensures ReceivedAsWritten(frames, body) <==> Unescape(BodyOf(frames[0])) == PlainPacket(body)
  {
    hide Receive, PlainPacket, Unescape, StartsL2;
    JoinFirst(frames, []);
    assert Join(frames) + [] == Join(frames);
    ReceiveFrame(frames[0], Join(frames[1..]) + [], seq(6, _ => 0xFF), WILDCARD_CMD, Link([], 0));
  }

  lemma {:induction false} UnescapeIsShorter(s: seq<byte>)
    ensures |Unescape(s)| <= |s|
    decreases |s|
  {
    hide XorBytes;
    if s != [] {
      UnescapeIsShorter(s[1..]);
      if |s| > 1 { UnescapeIsShorter(s[2..]); }
    }
  }

  lemma CutPlainIsShorter(body: seq<byte>, n: nat)
    requires |WirePacket(body)| - 2 <= n < |WirePacket(body)|
    ensures Unescape(WirePacket(body)[..n]) != PlainPacket(body)
  {
    hide Check, Escape, Unescape;
    var tail := (Pair(Check(body)) + [FLAG])[..n - 1 - |Escape(body)|];
    assert WirePacket(body)[..n] == [FLAG] + (Escape(body) + tail);
    UnescapePlain(FLAG, Escape(body) + tail);
    UnescapeUndoesEscape(body, tail);
    UnescapeIsShorter(tail);
  }

  /** A flag among the check bytes closes the packet early when the cut falls behind it. */
  lemma EarlyFlagBreaks(body: seq<byte>, n: nat)
    requires SIGNATURE <= body && |WirePacket(body)| + 18 < 65536
    requires |WirePacket(body)| - 2 <= n < |WirePacket(body)| && WirePacket(body)[n - 1] == FLAG
    ensures var frames := [FrameAround(WirePacket(body)[..n]), FrameAround(WirePacket(body)[n..])];
            IsCut(frames, WirePacket(body)) && !ReceivedAsWritten(frames, body)
  {
    hide Check, Escape, Unescape, FrameAround;
    var p := WirePacket(body);
    var a, b := p[..n], p[n..];
    WirePacketStarts(body);
    SignatureIsPlain(body);
    FrameAroundIsFrame(a);
    FrameAroundIsFrame(b);
    var frames := [FrameAround(a), FrameAround(b)];
    OneFrame(frames[1]);
    assert frames[1..] == [frames[1]];
    assert a[1..5] == p[1..5];
    ClosedFirstFrame(frames, body);
    hide *;
    CutPlainIsShorter(body, n);
  }

  lemma EscapeInCheckBreaks(body: seq<byte>)
    requires SIGNATURE <= body && |WirePacket(body)| + 18 < 65536 && ESCAPE in Pair(Check(body))
    ensures var frames := [FrameAround(WirePacket(body))];
            IsCut(frames, WirePacket(body)) && !ReceivedAsWritten(frames, body)
  {
    PacketRoundTrip(body);
    WirePacketStarts(body);
    hide Check, Unescape, FrameAround, WirePacket, PlainPacket;
    FrameAroundIsFrame(WirePacket(body));
    var frames := [FrameAround(WirePacket(body))];
    OneFrame(frames[0]);
    ClosedFirstFrame(frames, body);
  }

  /** The test that makes the sender re-roll the packet id is exactly the one every cut needs. */
  lemma SurvivesExactlyWhenClean(body: seq<byte>)
    requires SIGNATURE <= body && |WirePacket(body)| + 18 < 65536
    ensures SurvivesEveryCut(body) <==> Clean(Check(body))
  {
    if Clean(Check(body)) {
      forall frames | IsCut(frames, WirePacket(body))
        ensures ReceivedAsWritten(frames, body)
      {
        assert Join(frames) + [] == Join(frames);
        PacketSurvivesAnyCut(body, frames, [], seq(6, _ => 0xFF), WILDCARD_CMD, Link([], 0));
      }
    } else {
      DirtyPacketBreaks(body);
    }
  }

  lemma DirtyPacketBreaks(body: seq<byte>)
    requires SIGNATURE <= body && |WirePacket(body)| + 18 < 65536 && !Clean(Check(body))
    ensures !SurvivesEveryCut(body)
  {
    hide Check, Escape, IsCut, ReceivedAsWritten;
    var p, lo, hi := WirePacket(body), Check(body) % 256, Check(body) / 256;
    assert p[|p| - 3] == lo && p[|p| - 2] == hi;
    if lo == ESCAPE || hi == ESCAPE {
      EscapeInCheckBreaks(body);
    } else if lo == FLAG {
      EarlyFlagBreaks(body, |p| - 2);
    } else {
      EarlyFlagBreaks(body, |p| - 1);
    }
  }

  // ---------------------------------------------------------------- unfinished packets

  /** Frames that open a packet and never close it. */
  predicate IsTruncated(frames: seq<seq<byte>>) {
    && frames != []
    && AreFrames(frames)
    && StartsL2(BodyOf(frames[0]))
    && (forall i | 1 <= i < |frames| :: !StartsL2(BodyOf(frames[i])))
    && (forall i | 1 <= i <= |frames| :: !Closed(Bodies(frames[..i])))
  }

  lemma {:induction false} BodiesSplit(a: seq<seq<byte>>, b: seq<seq<byte>>)
    requires AreFrames(a) && AreFrames(b)
    ensures AreFrames(a + b) && Bodies(a + b) == Bodies(a) + Bodies(b)
  {
    if a == [] {
      assert a + b == b;
    } else {
      assert (a + b)[1..] == a[1..] + b;
      BodiesSplit(a[1..], b);
    }
  }

  lemma {:induction false} JoinSplit(a: seq<seq<byte>>, b: seq<seq<byte>>)
    ensures Join(a + b) == Join(a) + Join(b)
  {
    if a == [] {
      assert a + b == b;
    } else {
      assert (a + b)[1..] == a[1..] + b;
      JoinSplit(a[1..], b);
    }
  }

  lemma OneFrame(f: seq<byte>)
    requires IsFrame(f)
    ensures Join([f]) == f && Bodies([f]) == BodyOf(f)
  {
    var one := [f];
    assert |one[1..]| == 0;
  }

  lemma {:induction false} TruncatedIsGathered(frames: seq<seq<byte>>, n: nat, rest: seq<byte>,
                                               sender: seq<byte>, wait4cmd: int, link: Link)
    requires |sender| == 6 && IsTruncated(frames) && 1 <= n <= |frames|
    ensures Receive(Join(frames[..n]) + rest, sender, wait4cmd, link) ==
            Receive(rest, sender, wait4cmd, Link(Bodies(frames[..n]), Command(frames[0])))
  {
    hide Receive, Deliver;
    var f := frames[n - 1];
    var before := frames[..n - 1];
    assert frames[..n] == before + [f];
    JoinSplit(before, [f]);
    BodiesSplit(before, [f]);
    OneFrame(f);
    assert Join(frames[..n]) + rest == Join(before) + (f + rest);
    if n == 1 {
      assert Join(before) + (f + rest) == f + rest;
      ReceiveFrame(f, rest, sender, wait4cmd, link);
    } else {
      TruncatedIsGathered(frames, n - 1, f + rest, sender, wait4cmd, link);
      ReceiveFrame(f, rest, sender, wait4cmd, Link(Bodies(before), Command(frames[0])));
      assert before == [frames[0]] + before[1..];
      assert |Bodies(before)| >= |BodyOf(frames[0])|;
    }
  }

  /** A packet cut short contributes no byte to the packet that follows it. */
  lemma TruncatedPacketLeavesNoByte(truncated: seq<seq<byte>>, frames: seq<seq<byte>>, packet: seq<byte>,
                                    rest: seq<byte>, sender: seq<byte>, wait4cmd: int, link: Link)
    requires |sender| == 6 && IsTruncated(truncated)
    requires StartsL2(packet) && FlagOnlyAtEnds(packet) && IsCut(frames, packet)
    ensures Receive(Join(truncated) + (Join(frames) + rest), sender, wait4cmd, link) ==
            Receive(Join(frames) + rest, sender, wait4cmd, link)
  {
    hide Receive, Deliver;
    assert truncated[..|truncated|] == truncated;
    TruncatedIsGathered(truncated, |truncated|, Join(frames) + rest, sender, wait4cmd, link);
    CutPacketIsDelivered(frames, packet, rest, sender, wait4cmd, link);
    CutPacketIsDelivered(frames, packet, rest, sender, wait4cmd,
                         Link(Bodies(truncated), Command(truncated[0])));
  }

  /** A packet that is never completed times out; no partial packet is returned. */
  lemma TruncatedPacketTimesOut(truncated: seq<seq<byte>>, sender: seq<byte>, wait4cmd: int, link: Link)
    requires |sender| == 6 && IsTruncated(truncated)
    ensures Receive(Join(truncated), sender, wait4cmd, link) == Outcome(None, [])
  {
    assert truncated[..|truncated|] == truncated && Join(truncated) + [] == Join(truncated);
    TruncatedIsGathered(truncated, |truncated|, [], sender, wait4cmd, link);
  }
}
