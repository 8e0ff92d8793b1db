/** The Bluetooth connection: sending requests with fresh packet ids and collecting their replies. */
module Bluetooth {
  import opened Bits
  import opened Fcs
  import opened Framing
  import opened PacketIds
  import opened Reassembly
  import opened Wrappers

  const MAX_RETRY: nat := 3
  const SMA_ERR_LRI_NOT_AVAILABLE: int := 21

  datatype Device = Device(address: seq<byte>, susyId: word, serial: dword)

  /** What a request to one device comes to; the last case is an index past the end of a reply. */
  datatype Reply =
    | Frames(frames: seq<seq<byte>>)
    | Unsupported
    | ProtocolError(code: int)
    | TimedOut
    | OutOfBounds

  /** The byte at an index; None where indexing goes past the end. */
  function GetByte(buf: seq<byte>, at: nat): Option<byte> {
    if at < |buf| then Some(buf[at]) else None
  }

  /** The two bytes at an index, lowest first; None where reading either goes past the end. */
  function GetUshort(buf: seq<byte>, at: nat): Option<word> {
    match (GetByte(buf, at), GetByte(buf, at + 1))
    case (Some(lo), Some(hi)) => Some(Word(lo, hi))
    case _ => None
  }

  /** The count of fragments still to come. */
  function GetFragments(buf: seq<byte>, events: bool): Option<int> {
    if events then GetUshort(buf, 25) else GetByte(buf, 25)
  }

  /** How one received packet bears on the request with this id; a read past the end is a crash. */
  datatype Verdict = Skip | Crash | Refused | Failed(code: int) | Take(last: bool)

  function Judge(p: RecvPacket, id: word, events: bool): Verdict {
    if !p.isL2 || !p.fcsOk || |p.buf| < 28 then Skip
    else
      match GetUshort(p.buf, 27)
      case None => Crash
      case Some(tagged) =>
        if tagged % 0x8000 != id then Skip
        else
          match GetUshort(p.buf, 23)
          case None => Crash
          case Some(err) =>
            if err == SMA_ERR_LRI_NOT_AVAILABLE then Refused
            else if err != 0 then Failed(err)
            else
              match GetFragments(p.buf, events)
              case None => Crash
              case Some(fragments) => Take(fragments == 0)
  }

  function Zeros(n: nat): seq<byte> { seq(n, _ => 0) }

  /** An L2 packet in the shape of an Ethernet datagram. */
  function Normalize(buf: seq<byte>): seq<byte>
    requires |buf| >= 8
  {
    var dataLen := (|buf| - 6) % 65536;
    [0x53, 0x4D, 0x41, 0] + Zeros(8) + [dataLen / 256, dataLen % 256] + [0x00, 0x10, 0x60, 0x65]
    + buf[5..|buf| - 3] + Zeros(4)
  }

  /** Collects the frames of the reply to one request until the last fragment, a refusal or silence. */
  function Collect(stream: seq<byte>, address: seq<byte>, id: word, events: bool, frames: seq<seq<byte>>)
    : (r: (Reply, seq<byte>))
    requires |address| == 6
    decreases |stream|
  {
    var received := Receive(stream, address, 1, Link([], 0));
    if received.packet.None? then (if frames != [] then Frames(frames) else TimedOut, received.rest)
    else
      match Judge(received.packet.value, id, events)
      case Skip => Collect(received.rest, address, id, events, frames)
      case Crash => (OutOfBounds, received.rest)
      case Refused => (Unsupported, received.rest)
      case Failed(code) => (ProtocolError(code), received.rest)
      case Take(last) =>
        var more := frames + [Normalize(received.packet.value.buf)];
        if last then (Frames(more), received.rest) else Collect(received.rest, address, id, events, more)
  }

  // ---------------------------------------------------------------- replies as devices send them

  /** The body of a reply with these header fields: fragments left, error code and packet id. */
  predicate IsReply(body: seq<byte>, id: word, error: word, fragments: word) {
    && |body| >= 28
    && SIGNATURE <= body
    && body[22..24] == Pair(error)
    && body[24..26] == Pair(fragments)
    && body[26..28] == Pair(Tagged(id))
  }

  lemma PairWord(w: word)
    ensures Word(Pair(w)[0], Pair(w)[1]) == w
  {}

  lemma ReplyFields(body: seq<byte>, id: word, error: word, fragments: word)
    requires IsReply(body, id, error, fragments)
    ensures var buf := PlainPacket(body);
            |buf| > 28 && Word(buf[23], buf[24]) == error && Word(buf[25], buf[26]) == fragments
            && buf[25] == fragments % 256 && Word(buf[27], buf[28]) == Tagged(id)
  {
    hide Check;
    var buf := PlainPacket(body);
    assert buf[23] == body[22..24][0] && buf[24] == body[22..24][1];
    assert buf[25] == body[24..26][0] && buf[26] == body[24..26][1];
    assert buf[27] == body[26..28][0] && buf[28] == body[26..28][1];
    PairWord(error);
    PairWord(fragments);
    PairWord(Tagged(id));
  }

  /** What one whole reply, cut in any way, does to the collection of another or the same request. */
  lemma ReplyIsJudged(body: seq<byte>, replyId: word, error: word, fragments: word,
                      parts: seq<seq<byte>>, rest: seq<byte>, address: seq<byte>, id: word, events: bool,
                      frames: seq<seq<byte>>)
    requires |address| == 6 && IsReply(body, replyId, error, fragments) && Clean(Check(body))
    requires IsCut(parts, WirePacket(body)) && replyId < 0x8000
    requires Accepts(address, 1, parts[|parts| - 1], true, Command(parts[0]))
    ensures var more := frames + [Normalize(PlainPacket(body))];
            Collect(Join(parts) + rest, address, id, events, frames) ==
            if replyId != id then Collect(rest, address, id, events, frames)
            else if error == SMA_ERR_LRI_NOT_AVAILABLE then (Unsupported, rest)
            else if error != 0 then (ProtocolError(error), rest)
            else if (if events then fragments else fragments % 256) == 0 then (Frames(more), rest)
            else Collect(rest, address, id, events, more)
  {
    PacketSurvivesAnyCut(body, parts, rest, address, 1, Link([], 0));
    hide Receive, Normalize, PlainPacket, WirePacket, IsCut, Check, Accepts, Judge, IsReply;
    ReplyVerdict(body, replyId, error, fragments,
                 Receive(Join(parts) + rest, address, 1, Link([], 0)).packet.value, id, events);
  }

  lemma ReplyVerdict(body: seq<byte>, replyId: word, error: word, fragments: word, p: RecvPacket, id: word, events: bool)
    requires IsReply(body, replyId, error, fragments) && replyId < 0x8000 && p.buf == PlainPacket(body) && p.isL2 && p.fcsOk
    ensures Judge(p, id, events) ==
            if replyId != id then Skip
            else if error == SMA_ERR_LRI_NOT_AVAILABLE then Refused
            else if error != 0 then Verdict.Failed(error)
            else Take((if events then fragments else fragments % 256) == 0)
  {
    hide PlainPacket, Check, IsReply, Word, Tagged;
    ReplyFields(body, replyId, error, fragments);
    TaggedId(replyId);
    var tagged: word := Tagged(replyId);
    assert GetUshort(p.buf, 27) == Some(tagged) && GetUshort(p.buf, 23) == Some(error);
    assert GetFragments(p.buf, events) == Some(if events then fragments else fragments % 256);
    hide GetUshort, GetFragments;
  }

  /** A reply to an earlier request never reaches the result of this one. */
  lemma LateReplyIsIgnored(late: seq<byte>, lateId: word, lateError: word, lateFragments: word, lateParts: seq<seq<byte>>,
                           body: seq<byte>, id: word, parts: seq<seq<byte>>, rest: seq<byte>,
                           address: seq<byte>, events: bool)
    requires |address| == 6 && lateId < 0x8000 && id < 0x8000 && lateId != id
    requires IsReply(late, lateId, lateError, lateFragments) && IsReply(body, id, 0, 0)
    requires Clean(Check(late)) && Clean(Check(body))
    requires IsCut(lateParts, WirePacket(late)) && IsCut(parts, WirePacket(body))
    requires Accepts(address, 1, lateParts[|lateParts| - 1], true, Command(lateParts[0]))
    requires Accepts(address, 1, parts[|parts| - 1], true, Command(parts[0]))
    ensures Collect(Join(lateParts) + (Join(parts) + rest), address, id, events, []) ==
            (Frames([Normalize(PlainPacket(body))]), rest)
  {
    ReplyFields(body, id, 0, 0);
    hide Collect, Normalize, PlainPacket, WirePacket, IsCut, Check, Accepts, IsReply;
    ReplyIsJudged(late, lateId, lateError, lateFragments, lateParts, Join(parts) + rest, address, id, events, []);
    ReplyIsJudged(body, id, 0, 0, parts, rest, address, id, events, []);
    assert [] + [Normalize(PlainPacket(body))] == [Normalize(PlainPacket(body))];
  }

  /** A valid frame of the request: an L2 packet with a correct check, this id and no error. */
  ghost predicate Belongs(frame: seq<byte>, id: word) {
    exists buf: seq<byte> ::
      |buf| > 28 && frame == Normalize(buf) && ValidateFcs(buf) && Word(buf[23], buf[24]) == 0 &&
      Word(buf[27], buf[28]) % 0x8000 == id
  }

  lemma {:induction false} ReceivedCheckIsReal(stream: seq<byte>, sender: seq<byte>, wait4cmd: int, link: Link)
    requires |sender| == 6
    ensures var r := Receive(stream, sender, wait4cmd, link);
            r.packet.Some? && r.packet.value.isL2 ==> r.packet.value.fcsOk == ValidateFcs(r.packet.value.buf)
    decreases |stream|
  {
    if |stream| >= 18 && |stream| >= FrameSize(stream) {
      var f, rest := stream[..FrameSize(stream)], stream[FrameSize(stream)..];
      var next := Absorb(link, f);
      hide ValidateFcs, Absorb, Unescape;
      ReceivedCheckIsReal(rest, sender, wait4cmd, next);
      ReceivedCheckIsReal(rest, sender, wait4cmd, Link([], next.opening));
    }
  }

  lemma TakenBelongs(p: RecvPacket, id: word, events: bool)
    requires Judge(p, id, events).Take? && p.fcsOk == ValidateFcs(p.buf)
    ensures |p.buf| > 28 && Belongs(Normalize(p.buf), id)
  {
    hide Normalize, ValidateFcs;
  }

  lemma CollectStep(stream: seq<byte>, address: seq<byte>, id: word, events: bool, frames: seq<seq<byte>>)
    requires |address| == 6
    ensures var received := Receive(stream, address, 1, Link([], 0));
            var reply := Collect(stream, address, id, events, frames).0;
            reply.Frames? ==>
              if received.packet.None? then frames != [] && reply.frames == frames
              else
                var p, rest := received.packet.value, received.rest;
                || (Judge(p, id, events).Skip? && reply == Collect(rest, address, id, events, frames).0)
                || (Judge(p, id, events).Take? &&
                    var more := frames + [Normalize(p.buf)];
                    reply == Frames(more) || reply == Collect(rest, address, id, events, more).0)
  {
    hide Receive, Normalize;
  }

  /** Whatever bytes arrive, only frames of this very request are returned. */
  lemma {:induction false} FramesBelongToRequest(stream: seq<byte>, address: seq<byte>, id: word, events: bool,
                                                 frames: seq<seq<byte>>)
    requires |address| == 6 && forall i | 0 <= i < |frames| :: Belongs(frames[i], id)
    ensures var reply := Collect(stream, address, id, events, frames).0;
            reply.Frames? ==> frames <= reply.frames && reply.frames != [] &&
                              forall i | 0 <= i < |reply.frames| :: Belongs(reply.frames[i], id)
    decreases |stream|
  {
    ReceivedCheckIsReal(stream, address, 1, Link([], 0));
    CollectStep(stream, address, id, events, frames);
    hide Receive, Normalize, ValidateFcs, Belongs, Collect;
    var received := Receive(stream, address, 1, Link([], 0));
    if received.packet.Some? {
      var p := received.packet.value;
      if Judge(p, id, events).Skip? {
        FramesBelongToRequest(received.rest, address, id, events, frames);
      } else if Judge(p, id, events).Take? {
        TakenBelongs(p, id, events);
        FramesBelongToRequest(received.rest, address, id, events, frames + [Normalize(p.buf)]);
      }
    }
  }

  lemma {:induction false} ReceivedIsFromSender(stream: seq<byte>, sender: seq<byte>, wait4cmd: int, link: Link)
    requires |sender| == 6 && wait4cmd != 0xFF
    ensures var p := Receive(stream, sender, wait4cmd, link).packet; p.Some? ==> IsFrom(p.value.source, sender)
    decreases |stream|
  {
    hide Unescape, ValidateFcs;
    if |stream| >= 18 && |stream| >= FrameSize(stream) {
      var f, rest := stream[..FrameSize(stream)], stream[FrameSize(stream)..];
      var next := Absorb(link, f);
      ReceivedIsFromSender(rest, sender, wait4cmd, next);
      ReceivedIsFromSender(rest, sender, wait4cmd, Link([], next.opening));
    }
  }

  /** Whatever bytes arrive, only packets of the asked device are looked at. */
  lemma {:induction false} PacketsAreFromSender(stream: seq<byte>, address: seq<byte>)
    requires |address| == 6
    ensures forall p | p in Packets(stream, address) :: IsFrom(p.source, address)
    decreases |stream|
  {
    ReceivedIsFromSender(stream, address, 1, Link([], 0));
    hide Receive, IsFrom;
    var received := Receive(stream, address, 1, Link([], 0));
    if received.packet.Some? { PacketsAreFromSender(received.rest, address); }
  }

  // ---------------------------------------------------------------- crashes and partial replies

  /** The packets that successive reads return from these bytes. */
  function Packets(stream: seq<byte>, address: seq<byte>): seq<RecvPacket>
    requires |address| == 6
    decreases |stream|
  {
    var received := Receive(stream, address, 1, Link([], 0));
    if received.packet.None? then [] else [received.packet.value] + Packets(received.rest, address)
  }

  /** How a collection ends. */
  datatype Ending = Silence | LastFragment | PastTheEnd | Refusal | Error(code: int)

  /** The packets taken and the end of a collection over these packets. */
  function Scan(ps: seq<RecvPacket>, id: word, events: bool): (r: (seq<RecvPacket>, Ending))
    ensures forall i | 0 <= i < |r.0| :: |r.0[i].buf| > 28 && Judge(r.0[i], id, events).Take?
  {
    if ps == [] then ([], Silence)
    else
      match Judge(ps[0], id, events)
      case Skip => Scan(ps[1..], id, events)
      case Crash => ([], PastTheEnd)
      case Refused => ([], Refusal)
      case Failed(code) => ([], Error(code))
      case Take(last) =>
        if last then ([ps[0]], LastFragment)
        else
          var (taken, ending) := Scan(ps[1..], id, events);
          ([ps[0]] + taken, ending)
  }

  function NormalizeAll(ps: seq<RecvPacket>): seq<seq<byte>>
    requires forall i | 0 <= i < |ps| :: |ps[i].buf| > 28
  {
    if ps == [] then [] else [Normalize(ps[0].buf)] + NormalizeAll(ps[1..])
  }

  function ReplyOf(frames: seq<seq<byte>>, ending: Ending): Reply {
    match ending
    case Silence => if frames != [] then Frames(frames) else TimedOut
    case LastFragment => Frames(frames)
    case PastTheEnd => OutOfBounds
    case Refusal => Unsupported
    case Error(code) => ProtocolError(code)
  }

  lemma {:induction false} CollectScans(stream: seq<byte>, address: seq<byte>, id: word, events: bool,
                                        frames: seq<seq<byte>>)
    requires |address| == 6
    ensures var (taken, ending) := Scan(Packets(stream, address), id, events);
            Collect(stream, address, id, events, frames).0 == ReplyOf(frames + NormalizeAll(taken), ending)
    decreases |stream|
  {
    hide Receive, Normalize, Judge;
    var received := Receive(stream, address, 1, Link([], 0));
    if received.packet.Some? {
      var p, ps := received.packet.value, Packets(received.rest, address);
      assert Packets(stream, address)[0] == p && Packets(stream, address)[1..] == ps;
      match Judge(p, id, events)
      case Skip => CollectScans(received.rest, address, id, events, frames);
      case Take(last) =>
        TakenIsLong(p, id, events);
        var more := frames + [Normalize(p.buf)];
        if last {
          assert [p][1..] == [];
          assert NormalizeAll([p]) == [Normalize(p.buf)];
        } else {
          CollectScans(received.rest, address, id, events, more);
          var taken := Scan(ps, id, events).0;
          assert ([p] + taken)[1..] == taken;
          assert more + NormalizeAll(taken) == frames + NormalizeAll([p] + taken);
        }
      case _ =>
    } else {
      assert frames + [] == frames;
    }
  }

  lemma TakenIsLong(p: RecvPacket, id: word, events: bool)
    requires Judge(p, id, events).Take?
    ensures |p.buf| > 28
  {}

  /** A valid L2 packet that ends one byte behind the start of its id field. */
  predicate IsShort(p: RecvPacket) { p.isL2 && p.fcsOk && |p.buf| == 28 }

  predicate Continues(p: RecvPacket, id: word, events: bool) {
    Judge(p, id, events).Skip? || Judge(p, id, events) == Take(false)
  }

  /** A packet of 28 bytes arrives before anything else has ended the collection. */
  predicate MeetsShortPacket(ps: seq<RecvPacket>, id: word, events: bool) {
    exists n | 0 <= n < |ps| :: IsShort(ps[n]) && forall i | 0 <= i < n :: Continues(ps[i], id, events)
  }

  lemma {:induction false} ScanCrashesExactlyWhen(ps: seq<RecvPacket>, id: word, events: bool)
    ensures Scan(ps, id, events).1.PastTheEnd? <==> MeetsShortPacket(ps, id, events)
  {
    if ps != [] {
      var p, tail := ps[0], ps[1..];
      ScanCrashesExactlyWhen(tail, id, events);
      CrashIsShort(p, id, events);
      hide Judge, IsShort;
      if MeetsShortPacket(tail, id, events) && Continues(p, id, events) {
        var n :| 0 <= n < |tail| && IsShort(tail[n]) && forall i | 0 <= i < n :: Continues(tail[i], id, events);
        assert IsShort(ps[n + 1]);
        forall i | 0 <= i < n + 1
          ensures Continues(ps[i], id, events)
        {
          if i > 0 { assert ps[i] == tail[i - 1]; }
        }
      }
      if MeetsShortPacket(ps, id, events) {
        var n :| 0 <= n < |ps| && IsShort(ps[n]) && forall i | 0 <= i < n :: Continues(ps[i], id, events);
        if n > 0 {
          assert IsShort(tail[n - 1]);
          forall i | 0 <= i < n - 1
            ensures Continues(tail[i], id, events)
          {
            assert tail[i] == ps[i + 1];
          }
        }
      }
    }
  }

  /** Of all reads of a packet that is not dropped, only that of its id can fail: exactly on 28 bytes. */
  lemma CrashIsShort(p: RecvPacket, id: word, events: bool)
    ensures Judge(p, id, events).Crash? <==> IsShort(p)
    ensures IsShort(p) ==> !Continues(p, id, events)
    ensures |p.buf| >= 28 ==> GetUshort(p.buf, 23).Some? && GetFragments(p.buf, events).Some?
    ensures |p.buf| >= 28 ==> (GetUshort(p.buf, 27).None? <==> GetByte(p.buf, 27).Some? && GetByte(p.buf, 28).None?)
  {
    assert GetByte(p.buf, 27).Some? <==> |p.buf| > 27;
    assert GetByte(p.buf, 28).Some? <==> |p.buf| > 28;
  }

  /** A collection indexes past the end of a reply if and only if it meets a valid packet of exactly 28 bytes. */
  lemma CollectCrashesExactlyWhen(stream: seq<byte>, address: seq<byte>, id: word, events: bool, frames: seq<seq<byte>>)
    requires |address| == 6
    ensures Collect(stream, address, id, events, frames).0.OutOfBounds? <==>
            MeetsShortPacket(Packets(stream, address), id, events)
  {
    CollectScans(stream, address, id, events, frames);
    ScanCrashesExactlyWhen(Packets(stream, address), id, events);
    hide Collect, Packets, Scan, MeetsShortPacket;
  }

  /** Such a packet: a clean reply with a body of 24 bytes, cut in any way. */
  lemma ShortReplyCrashes(body: seq<byte>, parts: seq<seq<byte>>, rest: seq<byte>, address: seq<byte>, id: word,
                          events: bool, frames: seq<seq<byte>>)
    requires |address| == 6 && |body| == 24 && SIGNATURE <= body && Clean(Check(body))
    requires IsCut(parts, WirePacket(body)) && Accepts(address, 1, parts[|parts| - 1], true, Command(parts[0]))
    ensures Collect(Join(parts) + rest, address, id, events, frames) == (OutOfBounds, rest)
  {
    PacketSurvivesAnyCut(body, parts, rest, address, 1, Link([], 0));
    hide Receive, Normalize, Check, WirePacket, IsCut, Accepts;
  }

  function FragmentsLeft(p: RecvPacket, events: bool): int
    requires |p.buf| > 28
  {
    GetFragments(p.buf, events).value
  }

  /** The fragments of one whole reply: the count reaches zero at the last one and not before. */
  predicate IsWholeReply(ps: seq<RecvPacket>, events: bool)
    requires forall i | 0 <= i < |ps| :: |ps[i].buf| > 28
  {
    ps != [] && forall i | 0 <= i < |ps| :: FragmentsLeft(ps[i], events) == 0 <==> i == |ps| - 1
  }

  /** Every packet taken but the last announces more, and the last does not exactly at the last fragment. */
  predicate CountsDown(taken: seq<RecvPacket>, ending: Ending, events: bool)
    requires forall i | 0 <= i < |taken| :: |taken[i].buf| > 28
  {
    && (forall i | 0 <= i < |taken| - 1 :: FragmentsLeft(taken[i], events) != 0)
    && (ending.LastFragment? <==> taken != [] && FragmentsLeft(taken[|taken| - 1], events) == 0)
  }

  lemma {:induction false} ScanTakesFragments(ps: seq<RecvPacket>, id: word, events: bool)
    ensures var (taken, ending) := Scan(ps, id, events);
            CountsDown(taken, ending, events)
  {
    hide Judge, FragmentsLeft;
    if ps != [] {
      ScanTakesFragments(ps[1..], id, events);
      var (more, ending) := Scan(ps[1..], id, events);
      match Judge(ps[0], id, events)
      case Take(last) =>
        TakeCountsFragments(ps[0], id, events);
        if !last {
          hide Scan;
          OneMoreTaken(ps[0], more, ending, events);
        }
      case _ =>
    }
  }

  lemma OneMoreTaken(p: RecvPacket, more: seq<RecvPacket>, ending: Ending, events: bool)
    requires |p.buf| > 28 && forall i | 0 <= i < |more| :: |more[i].buf| > 28
    requires FragmentsLeft(p, events) != 0 && CountsDown(more, ending, events)
    ensures CountsDown([p] + more, ending, events)
  {
    hide FragmentsLeft;
    var taken := [p] + more;
    assert forall i | 0 < i < |taken| :: taken[i] == more[i - 1];
  }

  lemma TakeCountsFragments(p: RecvPacket, id: word, events: bool)
    requires Judge(p, id, events).Take?
    ensures |p.buf| > 28 && Judge(p, id, events) == Take(FragmentsLeft(p, events) == 0)
  {}

  lemma WholeExactlyAtZero(taken: seq<RecvPacket>, ending: Ending, events: bool)
    requires taken != [] && forall i | 0 <= i < |taken| :: |taken[i].buf| > 28
    requires CountsDown(taken, ending, events)
    ensures IsWholeReply(taken, events) <==> FragmentsLeft(taken[|taken| - 1], events) == 0
    ensures ending.LastFragment? <==> IsWholeReply(taken, events)
  {
    hide FragmentsLeft;
  }

  /**
   The frames returned are those of the packets taken, and they are a whole reply if and only if
   the last packet taken has no fragment left; otherwise the line fell silent in its middle.
   */
  lemma FramesAreWholeExactlyWhen(stream: seq<byte>, address: seq<byte>, id: word, events: bool)
    requires |address| == 6
    ensures var reply := Collect(stream, address, id, events, []).0;
            var (taken, ending) := Scan(Packets(stream, address), id, events);
            reply.Frames? ==>
              && taken != [] && reply.frames == NormalizeAll(taken)
              && (IsWholeReply(taken, events) <==> FragmentsLeft(taken[|taken| - 1], events) == 0)
              && (!IsWholeReply(taken, events) <==> ending.Silence?)
  {
    CollectScans(stream, address, id, events, []);
    var (taken, ending) := Scan(Packets(stream, address), id, events);
    assert [] + NormalizeAll(taken) == NormalizeAll(taken);
    ScanTakesFragments(Packets(stream, address), id, events);
    hide Collect, Packets, Scan, Judge, CountsDown, IsWholeReply, FragmentsLeft, NormalizeAll;
    if taken != [] { WholeExactlyAtZero(taken, ending, events); }
  }

  /** One packet that announces more, and then silence: it is returned as the reply. */
  lemma PartialReplyIsReturned(body: seq<byte>, id: word, fragments: word, parts: seq<seq<byte>>, rest: seq<byte>,
                               address: seq<byte>, events: bool)
    requires |address| == 6 && id < 0x8000 && IsReply(body, id, 0, fragments) && Clean(Check(body))
    requires (if events then fragments else fragments % 256) != 0
    requires IsCut(parts, WirePacket(body)) && Accepts(address, 1, parts[|parts| - 1], true, Command(parts[0]))
    requires Packets(rest, address) == []
    ensures var stream := Join(parts) + rest;
            && Collect(stream, address, id, events, []).0 == Frames([Normalize(PlainPacket(body))])
            && !IsWholeReply(Scan(Packets(stream, address), id, events).0, events)
  {
    ReplyIsJudged(body, id, 0, fragments, parts, rest, address, id, events, []);
    SilenceEnds(rest, address, id, events, [Normalize(PlainPacket(body))]);
    OneTaken(body, id, fragments, parts, rest, address, events);
    hide *;
    assert [] + [Normalize(PlainPacket(body))] == [Normalize(PlainPacket(body))];
  }

  lemma OneTaken(body: seq<byte>, id: word, fragments: word, parts: seq<seq<byte>>, rest: seq<byte>,
                 address: seq<byte>, events: bool)
    requires |address| == 6 && id < 0x8000 && IsReply(body, id, 0, fragments) && Clean(Check(body))
    requires (if events then fragments else fragments % 256) != 0
    requires IsCut(parts, WirePacket(body)) && Accepts(address, 1, parts[|parts| - 1], true, Command(parts[0]))
    requires Packets(rest, address) == []
    ensures |PlainPacket(body)| >= 8 && !IsWholeReply(Scan(Packets(Join(parts) + rest, address), id, events).0, events)
  {
    ReplyFields(body, id, 0, fragments);
    WholePacket(body, parts, rest, address);
    hide *;
    var stream := Join(parts) + rest;
    var p := Receive(stream, address, 1, Link([], 0)).packet.value;
    OnePacket(stream, rest, address, p);
    TakesFragment(body, id, fragments, p, events);
    OneFragment(p, id, events);
  }

  lemma WholePacket(body: seq<byte>, parts: seq<seq<byte>>, rest: seq<byte>, address: seq<byte>)
    requires |address| == 6 && |body| >= 28 && SIGNATURE <= body && Clean(Check(body))
    requires IsCut(parts, WirePacket(body)) && Accepts(address, 1, parts[|parts| - 1], true, Command(parts[0]))
    ensures var r := Receive(Join(parts) + rest, address, 1, Link([], 0));
            && r.packet.Some? && r.rest == rest && r == Outcome(Some(r.packet.value), rest)
            && r.packet.value.buf == PlainPacket(body) && r.packet.value.isL2 && r.packet.value.fcsOk
  {
    PacketSurvivesAnyCut(body, parts, rest, address, 1, Link([], 0));
    hide Receive, Check, WirePacket, IsCut, Accepts, PlainPacket;
  }

  lemma TakesFragment(body: seq<byte>, id: word, fragments: word, p: RecvPacket, events: bool)
    requires id < 0x8000 && IsReply(body, id, 0, fragments) && (if events then fragments else fragments % 256) != 0
    requires p.buf == PlainPacket(body) && p.isL2 && p.fcsOk
    ensures Judge(p, id, events) == Take(false)
  {
    hide *;
    ReplyFields(body, id, 0, fragments);
    TaggedId(id);
    FieldsAreTaken(p, id, fragments, events);
  }

  lemma TaggedId(id: word)
    requires id < 0x8000
    ensures Tagged(id) % 0x8000 == id
  {}

  lemma FieldsAreTaken(p: RecvPacket, id: word, fragments: word, events: bool)
    requires p.isL2 && p.fcsOk && |p.buf| > 28 && Word(p.buf[23], p.buf[24]) == 0
    requires Word(p.buf[25], p.buf[26]) == fragments && p.buf[25] == fragments % 256
    requires Word(p.buf[27], p.buf[28]) % 0x8000 == id && (if events then fragments else fragments % 256) != 0
    ensures Judge(p, id, events) == Take(false)
  {
    hide Word;
  }

  lemma OnePacket(stream: seq<byte>, rest: seq<byte>, address: seq<byte>, p: RecvPacket)
    requires |address| == 6 && Receive(stream, address, 1, Link([], 0)) == Outcome(Some(p), rest)
    requires Packets(rest, address) == []
    ensures Packets(stream, address) == [p]
  {
    hide Receive;
  }

  lemma OneFragment(p: RecvPacket, id: word, events: bool)
    requires Judge(p, id, events) == Take(false)
    ensures !IsWholeReply(Scan([p], id, events).0, events)
  {
    TakeCountsFragments(p, id, events);
    hide Judge, FragmentsLeft;
    var none: seq<RecvPacket> := [p][1..];
    assert |none| == 0;
    assert Scan(none, id, events).0 == [];
    var taken := Scan([p], id, events).0;
    assert taken == [p] + [];
    assert FragmentsLeft(taken[0], events) != 0;
  }

  lemma SilenceEnds(rest: seq<byte>, address: seq<byte>, id: word, events: bool, frames: seq<seq<byte>>)
    requires |address| == 6 && Packets(rest, address) == [] && frames != []
    ensures Collect(rest, address, id, events, frames).0 == Frames(frames)
  {
    hide Receive;
  }

  // ---------------------------------------------------------------- the connection

  function IsArchive(command: dword): bool {
    command == 0x7000_0200 || command == 0x7020_0200 || command == 0x7010_0200 || command == 0x7012_0200
  }

  function AddressingOf(device: Device, command: dword, appSerial: dword): Addressing {
    Addressing(0x09, if IsArchive(command) then 0xE0 else 0xA0, 0, device.susyId, device.serial, appSerial)
  }

  function FrameDest(device: Device, command: dword): seq<byte> {
    if IsArchive(command) then device.address else seq(6, _ => 0xFF)
  }

  /**
   Archive commands are sent with control byte 0xE0 to the device's own address, all others with 0xA0
   to any address; both carry the device's ids and ask for queue 0x09.
   */
  lemma ArchivesAreAddressed(device: Device, command: dword, appSerial: dword)
    ensures var a, archive := AddressingOf(device, command, appSerial),
                              command in {0x7000_0200, 0x7010_0200, 0x7012_0200, 0x7020_0200};
            && a.longwords == 0x09 && a.ctrl == (if archive then 0xE0 else 0xA0) && a.ctrl2 == 0
            && a.susyId == device.susyId && a.serial == device.serial && a.appSerial == appSerial
            && FrameDest(device, command) == (if archive then device.address else [0xFF, 0xFF, 0xFF, 0xFF, 0xFF, 0xFF])
  {}

  /** A request frame on the wire. */
  function RequestFrame(local: seq<byte>, dest: seq<byte>, a: Addressing, id: word, payload: seq<byte>): seq<byte> {
    var packet := WirePacket(Body(a, id, payload));
    L1Header((4 + |local| + |dest| + 2 + |packet|) % 65536, local, dest, 1) + packet
  }

  /** The request's attempts: each waits for its own reply among all the bytes that have arrived by then. */
  function Attempts(stream: seq<byte>, arrivals: seq<seq<byte>>, a: Addressing, address: seq<byte>, id: word,
                    payload: seq<byte>, events: bool, retries: nat): (r: (Reply, word, nat))
    requires |address| == 6 && retries > 0
    ensures r.2 <= retries && (r.0.TimedOut? ==> r.2 == retries)
    decreases retries
  {
    var issued := FreshId(a, id, payload);
    var here := if arrivals == [] then stream else stream + arrivals[0];
    var (reply, rest) := Collect(here, address, issued, events, []);
    if reply.TimedOut? && retries > 1 then
      var (later, last, n) := Attempts(rest, if arrivals == [] then [] else arrivals[1..], a, address, issued, payload,
                                       events, retries - 1);
      (later, last, n + 1)
    else (reply, issued, 1)
  }

  /** The first attempt decides, unless it met silence and another is left. */
  lemma AttemptStep(stream: seq<byte>, arrivals: seq<seq<byte>>, a: Addressing, address: seq<byte>, id: word,
                    payload: seq<byte>, events: bool, retries: nat)
    requires |address| == 6 && retries > 0
    ensures var next := FreshId(a, id, payload);
            var here := if arrivals == [] then stream else stream + arrivals[0];
            var (reply, rest) := Collect(here, address, next, events, []);
            Attempts(stream, arrivals, a, address, id, payload, events, retries) ==
            if reply.TimedOut? && retries > 1 then
              var later := Attempts(rest, if arrivals == [] then [] else arrivals[1..], a, address, next, payload, events,
                                    retries - 1);
              (later.0, later.1, later.2 + 1)
            else (reply, next, 1)
  {
    hide FreshId, Collect;
  }

  /** After one attempt: what is left of the request, or its end. */
  lemma AttemptMade(stream: seq<byte>, arrivals: seq<seq<byte>>, a: Addressing, address: seq<byte>, id: word,
                    payload: seq<byte>, events: bool, retries: nat, reply: Reply, rest: seq<byte>, later: seq<seq<byte>>,
                    next: word)
    requires |address| == 6 && retries > 0 && next == FreshId(a, id, payload)
    requires (reply, rest) == Collect(if arrivals == [] then stream else stream + arrivals[0], address, next, events, [])
    requires later == if arrivals == [] then [] else arrivals[1..]
    ensures var whole := Attempts(stream, arrivals, a, address, id, payload, events, retries);
            && (!reply.TimedOut? || retries == 1 ==> whole == (reply, next, 1))
            && (reply.TimedOut? && retries > 1 ==>
                  var tail := Attempts(rest, later, a, address, next, payload, events, retries - 1);
                  whole == (tail.0, tail.1, tail.2 + 1))
  {
    AttemptStep(stream, arrivals, a, address, id, payload, events, retries);
    hide FreshId, Collect, Attempts;
  }

  /** The number of four bytes, lowest first. */
  function Number(q: seq<byte>): int
    requires |q| == 4
  {
    Word(q[0], q[1]) + 0x1_0000 * Word(q[2], q[3])
  }

  /** The offsets at which the receiver looks for the fields of a packet written here. */
  lemma RequestFields(a: Addressing, id: word, payload: seq<byte>)
    ensures var buf := PlainPacket(Body(a, id, payload));
            && buf[0] == FLAG && buf[1..5] == SIGNATURE && buf[5] == a.longwords && buf[6] == a.ctrl
            && buf[7..9] == Pair(a.susyId) && buf[15..17] == Pair(APP_SUSYID)
            && Number(buf[9..13]) == a.serial && Number(buf[17..21]) == a.appSerial
            && buf[13..15] == Pair(a.ctrl2) && buf[21..23] == Pair(a.ctrl2)
            && buf[23..27] == [0, 0, 0, 0]
            && buf[27] == id % 256 && buf[28] == id % 0x8000 / 256 + 0x80 && buf[29..29 + |payload|] == payload
  {
    var head, check := HeaderStart(a), Pair(Check(Body(a, id, payload))) + [FLAG];
    HeaderLayout(a);
    BehindTheHeader(a, id, payload);
    QuadIsNumber(a.serial);
    QuadIsNumber(a.appSerial);
    TaggedBytes(id);
    var rest := Pair(Tagged(id)) + payload + check;
    hide *;
    FieldOfHead(head, rest, 0, 4);
    FieldOfHead(head, rest, 6, 8);
    FieldOfHead(head, rest, 8, 12);
    FieldOfHead(head, rest, 12, 14);
    FieldOfHead(head, rest, 14, 16);
    FieldOfHead(head, rest, 16, 20);
    FieldOfHead(head, rest, 20, 22);
    FieldOfHead(head, rest, 22, 26);
  }

  lemma BehindTheHeader(a: Addressing, id: word, payload: seq<byte>)
    ensures var buf, rest := PlainPacket(Body(a, id, payload)),
                             Pair(Tagged(id)) + payload + (Pair(Check(Body(a, id, payload))) + [FLAG]);
            && buf == [FLAG] + HeaderStart(a) + rest && buf[0] == FLAG
            && buf[5] == HeaderStart(a)[4] && buf[6] == HeaderStart(a)[5] && |HeaderStart(a)| == 26
            && buf[27] == Pair(Tagged(id))[0] && buf[28] == Pair(Tagged(id))[1] && buf[29..29 + |payload|] == payload
  {
    HeaderLayout(a);
    hide HeaderStart, Check, Tagged;
  }

  /** A field of the header stands behind the opening flag. */
  lemma FieldOfHead(head: seq<byte>, rest: seq<byte>, i: nat, j: nat)
    requires i <= j <= |head|
    ensures ([FLAG] + head + rest)[1 + i..1 + j] == head[i..j]
  {}

  lemma TaggedBytes(id: word)
    ensures Pair(Tagged(id)) == [id % 256, id % 0x8000 / 256 + 0x80]
  {}

  lemma HeaderLayout(a: Addressing)
    ensures var head := HeaderStart(a);
            && |head| == 26 && head[..4] == SIGNATURE && head[4] == a.longwords && head[5] == a.ctrl
            && head[6..8] == Pair(a.susyId) && head[8..12] == Quad(a.serial) && head[14..16] == Pair(APP_SUSYID)
            && head[12..14] == Pair(a.ctrl2) && head[16..20] == Quad(a.appSerial) && head[20..22] == Pair(a.ctrl2)
            && head[22..26] == [0, 0, 0, 0]
  {}

  lemma QuadIsNumber(v: dword)
    ensures |Quad(v)| == 4 && Number(Quad(v)) == v
  {
    var a, b, c := v / 0x100, v / 0x1_0000, v / 0x100_0000;
    FourDigits(v, a, b, c);
    assert Quad(v) == [v % 256, a % 256, b % 256, c];
  }

  lemma FourDigits(v: dword, a: int, b: int, c: int)
    requires a == v / 0x100 && b == v / 0x1_0000 && c == v / 0x100_0000
    ensures v == v % 256 + 0x100 * (a % 256) + 0x1_0000 * (b % 256) + 0x100_0000 * c
  {
    assert b == a / 0x100;
    assert c == b / 0x100;
  }

  /** Every request frame carries a packet that survives every cut. */
  lemma RequestSurvivesEveryCut(a: Addressing, id: word, payload: seq<byte>)
    requires |payload| < 30000
    ensures SurvivesEveryCut(Body(a, FreshId(a, id, payload), payload))
  {
    var body := Body(a, FreshId(a, id, payload), payload);
    HeaderLayout(a);
    hide HeaderStart, FreshId, Check, SurvivesEveryCut;
    assert SIGNATURE <= body;
    EscapeAtMostDoubles(body);
    SurvivesExactlyWhenClean(body);
  }

  /** A request frame is one frame to its receiver: length, source, command and body are where it looks. */
  lemma RequestIsOneFrame(local: seq<byte>, dest: seq<byte>, a: Addressing, id: word, payload: seq<byte>)
    requires |local| == |dest| == 6 && |payload| < 30000
    ensures var f := RequestFrame(local, dest, a, id, payload);
            && IsFrame(f) && Source(f) == local && Command(f) == 1 && BodyOf(f) == WirePacket(Body(a, id, payload))
            && f[3] == XorBytes(XorBytes(f[0], f[1]), f[2])
  {
    HeaderLayout(a);
    EscapeAtMostDoubles(Body(a, id, payload));
    hide HeaderStart, Escape, Check, Xor, XorBytes;
    var packet := WirePacket(Body(a, id, payload));
    var f, length := RequestFrame(local, dest, a, id, payload), 18 + |packet|;
    assert |packet| < 65000;
    assert f == L1Header(length, local, dest, 1) + packet;
    assert f[1] == length % 256 && f[2] == length / 256 && f[16] == 1 && f[17] == 0;
    assert f[4..10] == local && f[18..] == packet;
  }

  /** What this side writes, the receiving loop reads back: body, sender and a valid check. */
  lemma RequestIsReceived(local: seq<byte>, dest: seq<byte>, a: Addressing, id: word, payload: seq<byte>,
                          rest: seq<byte>, sender: seq<byte>, link: Link)
    requires |local| == |dest| == |sender| == 6 && |payload| < 30000 && ValidSender(sender, local)
    requires Clean(Check(Body(a, id, payload)))
    ensures Receive(RequestFrame(local, dest, a, id, payload) + rest, sender, 1, link) ==
            Outcome(Some(RecvPacket(PlainPacket(Body(a, id, payload)), local, 1, true, true)), rest)
  {
    RequestIsOneFrame(local, dest, a, id, payload);
    BodyStartsWithSignature(a, id, payload);
    hide Check, Receive, PlainPacket, RequestFrame, ValidSender, Clean, WirePacket, IsFrame, IsCut, Body;
    var body, f := Body(a, id, payload), RequestFrame(local, dest, a, id, payload);
    OneFrameIsCut(f, body);
    PacketSurvivesAnyCut(body, [f], rest, sender, 1, link);
  }

  lemma BodyStartsWithSignature(a: Addressing, id: word, payload: seq<byte>)
    ensures SIGNATURE <= Body(a, id, payload)
  {
    HeaderLayout(a);
    hide HeaderStart;
    assert Body(a, id, payload)[..4] == HeaderStart(a)[..4];
  }

  lemma OneFrameIsCut(f: seq<byte>, body: seq<byte>)
    requires IsFrame(f) && BodyOf(f) == WirePacket(body) && SIGNATURE <= body
    ensures IsCut([f], WirePacket(body)) && Join([f]) == f
  {
    OneFrame(f);
    WirePacketStarts(body);
    hide WirePacket, IsFrame;
  }

  lemma {:induction false} EscapeAtMostDoubles(s: seq<byte>)
    ensures |Escape(s)| <= 2 * |s|
  {
    hide XorBytes;
    if s != [] { EscapeAtMostDoubles(s[1..]); }
  }

  /** The Ethernet shape keeps the packet's content behind the signature, moved by thirteen bytes. */
  lemma NormalizeKeepsContent(body: seq<byte>)
    requires SIGNATURE <= body
    ensures var buf := PlainPacket(body);
            var n := Normalize(buf);
            && |n| == |buf| + 14 && n[18..|n| - 4] == body[4..]
            && n[..4] == [0x53, 0x4D, 0x41, 0x00] && n[14..18] == [0x00, 0x10, 0x60, 0x65]
            && (forall k | 5 <= k < |buf| - 3 :: n[k + 13] == buf[k])
            && (|n| - 20 < 65536 ==> 256 * (n[12] as int) + n[13] == |n| - 20)
  {
    hide Check;
    var buf := PlainPacket(body);
    assert buf[5..|buf| - 3] == body[4..];
  }

  /** What each attempt reads from and its packet id, as long as the attempts before it met silence. */
  function Tries(stream: seq<byte>, arrivals: seq<seq<byte>>, a: Addressing, address: seq<byte>, id: word,
                 payload: seq<byte>, events: bool, retries: nat): (ts: seq<(seq<byte>, word)>)
    requires |address| == 6
    ensures |ts| == retries
    decreases retries
  {
    if retries == 0 then []
    else
      var next := FreshId(a, id, payload);
      var here := if arrivals == [] then stream else stream + arrivals[0];
      [(here, next)] + Tries(Collect(here, address, next, events, []).1, if arrivals == [] then [] else arrivals[1..], a,
                             address, next, payload, events, retries - 1)
  }

  function ReplyTo(t: (seq<byte>, word), address: seq<byte>, events: bool): Reply
    requires |address| == 6
  {
    Collect(t.0, address, t.1, events, []).0
  }

  /** The reply of the first attempt that does not meet silence, else of the last. */
  function FirstAnswer(ts: seq<(seq<byte>, word)>, address: seq<byte>, events: bool): Reply
    requires |address| == 6 && ts != []
  {
    if ReplyTo(ts[0], address, events).TimedOut? && |ts| > 1 then FirstAnswer(ts[1..], address, events)
    else ReplyTo(ts[0], address, events)
  }

  lemma TriesStep(stream: seq<byte>, arrivals: seq<seq<byte>>, a: Addressing, address: seq<byte>, id: word,
                  payload: seq<byte>, events: bool, retries: nat)
    requires |address| == 6 && retries > 0
    ensures var next := FreshId(a, id, payload);
            var here := if arrivals == [] then stream else stream + arrivals[0];
            var rest := Collect(here, address, next, events, []).1;
            Tries(stream, arrivals, a, address, id, payload, events, retries) ==
            [(here, next)] + Tries(rest, if arrivals == [] then [] else arrivals[1..], a, address, next, payload, events,
                                   retries - 1)
  {
    hide FreshId, Collect;
  }

  lemma FirstAnswerStep(t: (seq<byte>, word), more: seq<(seq<byte>, word)>, address: seq<byte>, events: bool)
    requires |address| == 6
    ensures FirstAnswer([t] + more, address, events) ==
            if ReplyTo(t, address, events).TimedOut? && more != [] then FirstAnswer(more, address, events)
            else ReplyTo(t, address, events)
  {
    hide ReplyTo;
    assert ([t] + more)[1..] == more;
  }

  lemma {:induction false} FirstAnswerDecides(stream: seq<byte>, arrivals: seq<seq<byte>>, a: Addressing, address: seq<byte>,
                                              id: word, payload: seq<byte>, events: bool, retries: nat)
    requires |address| == 6 && retries > 0
    ensures Attempts(stream, arrivals, a, address, id, payload, events, retries).0 ==
            FirstAnswer(Tries(stream, arrivals, a, address, id, payload, events, retries), address, events)
    decreases retries
  {
    hide Attempts, Tries, FreshId, Collect, FirstAnswer;
    AttemptStep(stream, arrivals, a, address, id, payload, events, retries);
    TriesStep(stream, arrivals, a, address, id, payload, events, retries);
    var next := FreshId(a, id, payload);
    var here := if arrivals == [] then stream else stream + arrivals[0];
    var later := if arrivals == [] then [] else arrivals[1..];
    var (reply, rest) := Collect(here, address, next, events, []);
    var more := Tries(rest, later, a, address, next, payload, events, retries - 1);
    FirstAnswerStep((here, next), more, address, events);
    if reply.TimedOut? && retries > 1 {
      FirstAnswerDecides(rest, later, a, address, next, payload, events, retries - 1);
    }
  }

  /** Attempt `m` meets a packet of 28 bytes, and the attempts before it met silence. */
  ghost predicate CrashesAt(ts: seq<(seq<byte>, word)>, address: seq<byte>, events: bool, m: nat)
    requires |address| == 6 && m < |ts|
  {
    && MeetsShortPacket(Packets(ts[m].0, address), ts[m].1, events)
    && forall i | 0 <= i < m :: ReplyTo(ts[i], address, events).TimedOut?
  }

  lemma {:induction false} FirstAnswerCrashes(ts: seq<(seq<byte>, word)>, address: seq<byte>, events: bool)
    requires |address| == 6 && ts != []
    ensures FirstAnswer(ts, address, events).OutOfBounds? <==>
            exists m: nat | m < |ts| :: CrashesAt(ts, address, events, m)
  {
    CollectCrashesExactlyWhen(ts[0].0, address, ts[0].1, events, []);
    hide Collect, MeetsShortPacket, Packets;
    if ReplyTo(ts[0], address, events).OutOfBounds? { assert CrashesAt(ts, address, events, 0); }
    if ReplyTo(ts[0], address, events).TimedOut? && |ts| > 1 {
      FirstAnswerCrashes(ts[1..], address, events);
      hide CrashesAt, ReplyTo;
      CrashesLater(ts, address, events);
    }
  }

  /** Behind an attempt that met silence the crash is one of the later attempts. */
  lemma CrashesLater(ts: seq<(seq<byte>, word)>, address: seq<byte>, events: bool)
    requires |address| == 6 && |ts| > 1 && ReplyTo(ts[0], address, events).TimedOut?
    ensures (exists m: nat | m < |ts| :: CrashesAt(ts, address, events, m)) <==>
            exists m: nat | m < |ts| - 1 :: CrashesAt(ts[1..], address, events, m)
  {
    SilentIsNoCrash(ts, address, events);
    hide CrashesAt, ReplyTo;
    if exists m: nat | m < |ts| :: CrashesAt(ts, address, events, m) {
      var m: nat :| m < |ts| && CrashesAt(ts, address, events, m);
      var k := m - 1;
      LaterCrash(ts, address, events, k);
      assert CrashesAt(ts[1..], address, events, k);
    }
    if exists m: nat | m < |ts| - 1 :: CrashesAt(ts[1..], address, events, m) {
      var m: nat :| m < |ts| - 1 && CrashesAt(ts[1..], address, events, m);
      var k := m + 1;
      LaterCrash(ts, address, events, m);
      assert CrashesAt(ts, address, events, k);
    }
  }

  lemma SilentIsNoCrash(ts: seq<(seq<byte>, word)>, address: seq<byte>, events: bool)
    requires |address| == 6 && ts != [] && ReplyTo(ts[0], address, events).TimedOut?
    ensures !CrashesAt(ts, address, events, 0)
  {
    CollectCrashesExactlyWhen(ts[0].0, address, ts[0].1, events, []);
    hide Collect, MeetsShortPacket, Packets;
  }

  lemma LaterCrash(ts: seq<(seq<byte>, word)>, address: seq<byte>, events: bool, m: nat)
    requires |address| == 6 && m < |ts| - 1 && ReplyTo(ts[0], address, events).TimedOut?
    ensures CrashesAt(ts[1..], address, events, m) <==> CrashesAt(ts, address, events, m + 1)
  {
    hide ReplyTo, MeetsShortPacket, Packets;
    assert forall i | 0 < i < |ts| :: ts[i] == ts[1..][i - 1];
    assert forall i | 0 <= i < |ts| - 1 :: ts[1..][i] == ts[i + 1];
  }

  /** A request indexes past the end of a reply exactly when the first attempt not met by silence meets a 28-byte packet. */
  lemma RequestCrashesExactlyWhen(stream: seq<byte>, arrivals: seq<seq<byte>>, a: Addressing, address: seq<byte>,
                                  id: word, payload: seq<byte>, events: bool, retries: nat)
    requires |address| == 6 && retries > 0
    ensures var ts := Tries(stream, arrivals, a, address, id, payload, events, retries);
            Attempts(stream, arrivals, a, address, id, payload, events, retries).0.OutOfBounds? <==>
            exists m: nat | m < retries :: CrashesAt(ts, address, events, m)
  {
    hide Attempts, Tries, CrashesAt, FirstAnswer;
    FirstAnswerDecides(stream, arrivals, a, address, id, payload, events, retries);
    FirstAnswerCrashes(Tries(stream, arrivals, a, address, id, payload, events, retries), address, events);
  }

  class BtClient {
    /** Received bytes not read yet, and what arrives after each of the next frames sent. */
    var stream: seq<byte>
    var arrivals: seq<seq<byte>>
    var sent: seq<seq<byte>>
    var pcktId: word
    const local: seq<byte>
    const appSerial: dword

    constructor (stream: seq<byte>, arrivals: seq<seq<byte>>, local: seq<byte>, appSerial: dword)
      ensures this.stream == stream && this.arrivals == arrivals && sent == [] && pcktId == 0
      ensures this.local == local && this.appSerial == appSerial
    {
      this.stream, this.arrivals, this.local, this.appSerial := stream, arrivals, local, appSerial;
      sent, pcktId := [], 0;
    }

    /** A read that times out drops the bytes it had received. */
    method ReadExact(n: nat) returns (bytes: Option<seq<byte>>)
      modifies this`stream
      ensures if |old(stream)| < n then bytes == None && stream == []
              else bytes == Some(old(stream)[..n]) && stream == old(stream)[n..]
    {
      if |stream| < n {
        stream := [];
        return None;
      }
      bytes := Some(stream[..n]);
      stream := stream[n..];
    }

    method SendFrame(frame: seq<byte>)
      modifies this`stream, this`arrivals, this`sent
      ensures sent == old(sent) + [frame]
      ensures stream == if old(arrivals) == [] then old(stream) else old(stream) + old(arrivals)[0]
      ensures arrivals == if old(arrivals) == [] then [] else old(arrivals)[1..]
    {
      sent := sent + [frame];
      if arrivals != [] {
        stream := stream + arrivals[0];
        arrivals := arrivals[1..];
      }
    }

    method NextPcktId() returns (id: word)
      modifies this`pcktId
      ensures id == pcktId == NextId(old(pcktId))
    {
      pcktId := (pcktId + 1) % 65536 % 0x8000;
      if pcktId == 0 { pcktId := 1; }
      id := pcktId;
    }

    method WriteRequest(dest: seq<byte>, a: Addressing, id: word, payload: seq<byte>) returns (frame: seq<byte>)
      ensures frame == RequestFrame(local, dest, a, id, payload)
    {
      hide Escape, Run, HeaderStart, L1Header;
      var w := new FrameWriter(1, local, dest);
      w.L2Header(a, id);
      w.Array(payload);
      w.Trailer();
      frame := w.Finish();
      FrameIsWritten(local, dest, a, id, payload, w.buf, frame);
    }

    /** Re-rolls the packet id until the check sequence may be sent as it is. */
    method BuildL2Dest(dest: seq<byte>, a: Addressing, payload: seq<byte>) returns (frame: seq<byte>)
      modifies this`pcktId
      ensures pcktId == FreshId(a, old(pcktId), payload)
      ensures frame == RequestFrame(local, dest, a, pcktId, payload)
    {
      hide RequestFrame, Attempt, FreshId, Clean, NextId;
      ghost var n := 0;
      ghost var start := pcktId;
      while true
        invariant pcktId == IdAfter(start, n)
        invariant forall j | 1 <= j <= n :: !Clean(Attempt(a, start, j, payload))
        decreases 1025 - n
      {
        var id := NextPcktId();
        assert id == IdAfter(start, n + 1);
        frame := WriteRequest(dest, a, id, payload);
        CheckBytes(local, dest, a, start, n + 1, payload);
        var lo, hi := frame[|frame| - 3], frame[|frame| - 2];
        if lo != 0x7D && lo != 0x7E && hi != 0x7D && hi != 0x7E {
          FirstCleanIs(a, start, payload, n + 1);
          return;
        }
        n := n + 1;
        FewAttemptsFail(a, start, n, payload);
      }
    }

    /** Reads one whole L1 frame. */
    method ReadFrame() returns (frame: Option<seq<byte>>)
      modifies this`stream
      ensures frame.Some? ==> |frame.value| >= 18
      ensures |old(stream)| < 18 ==> frame == None && stream == []
      ensures |old(stream)| >= 18 ==>
                var size := FrameSize(old(stream));
                if |old(stream)| < size then frame == None && stream == []
                else frame == Some(old(stream)[..size]) && stream == old(stream)[size..]
    {
      frame := ReadExact(18);
      if frame.None? { return; }
      var pkLen := Word(frame.value[1], frame.value[2]);
      if pkLen > 18 {
        var body := ReadExact(pkLen - 18);
        if body.None? { return None; }
        assert old(stream)[..18] + old(stream)[18..][..pkLen - 18] == old(stream)[..pkLen];
        frame := Some(frame.value + body.value);
      }
    }

    /** Reads frames until a packet completes that the caller waits for. */
    method GetPacket(sender: seq<byte>, wait4cmd: int) returns (packet: Option<RecvPacket>)
      requires |sender| == 6
      modifies this`stream
      ensures Outcome(packet, stream) == Receive(old(stream), sender, wait4cmd, Link([], 0))
    {
      hide Unescape, ValidateFcs, ValidSender, FrameSize;
      var l2: seq<byte> := [];
      var l2Command := 0;
      while true
        invariant Receive(stream, sender, wait4cmd, Link(l2, l2Command)) ==
                  Receive(old(stream), sender, wait4cmd, Link([], 0))
        decreases |stream|
      {
        var read := ReadFrame();
        if read.None? { return None; }
        var frame := read.value;
        var body := frame[18..];
        if |body| > 4 && body[0] == 0x7E && body[1..5] == SIGNATURE {
          l2, l2Command := body, Word(frame[16], frame[17]);
        } else if l2 != [] {
          l2 := l2 + body;
        }
        if l2 == [] || (|l2| > 5 && l2[|l2| - 1] == 0x7E) {
          var p := RecvPacket(frame, frame[4..10], Word(frame[16], frame[17]), false, true);
          if l2 != [] {
            var plain := UnescapeBytes(l2);
            var ok := ValidateFcs(plain);
            p := p.(buf := plain, isL2 := true, fcsOk := ok);
          }
          l2 := [];
          var matches := p.command == wait4cmd || (p.isL2 && l2Command == wait4cmd);
          if wait4cmd == WILDCARD_CMD || (ValidSender(sender, p.source) && matches) {
            return Some(p);
          }
        }
      }
    }

    /** Collects the reply to the request whose id is current. */
    method CollectReply(address: seq<byte>, events: bool) returns (reply: Reply)
      requires |address| == 6
      modifies this`stream
      ensures (reply, stream) == Collect(old(stream), address, pcktId, events, [])
    {
      hide Receive, Normalize;
      var frames: seq<seq<byte>> := [];
      while true
        invariant Collect(stream, address, pcktId, events, frames) ==
                  Collect(old(stream), address, pcktId, events, [])
        decreases |stream|
      {
        var received := GetPacket(address, 0x0001);
        if received.None? {
          return if frames != [] then Frames(frames) else TimedOut;
        }
        var p := received.value;
        if !p.isL2 || !p.fcsOk || |p.buf| < 28 { continue; }
        var tagged := GetUshort(p.buf, 27);
        if tagged.None? { return OutOfBounds; }
        if tagged.value % 0x8000 != pcktId { continue; }
        var err := GetUshort(p.buf, 23);
        if err.None? { return OutOfBounds; }
        if err.value == SMA_ERR_LRI_NOT_AVAILABLE { return Unsupported; }
        if err.value != 0 { return ProtocolError(err.value); }
        var fragLeft := GetFragments(p.buf, events);
        if fragLeft.None? { return OutOfBounds; }
        frames := frames + [Normalize(p.buf)];
        if fragLeft.value == 0 { return Frames(frames); }
      }
    }

    /** One attempt: a frame with a new packet id, and whatever answers it. */
    method TryDevice(device: Device, command: dword, payload: seq<byte>, events: bool) returns (reply: Reply)
      requires |device.address| == 6
      modifies this
      ensures var a := AddressingOf(device, command, appSerial);
              var here := if old(arrivals) == [] then old(stream) else old(stream) + old(arrivals)[0];
              && pcktId == FreshId(a, old(pcktId), payload)
              && (reply, stream) == Collect(here, device.address, pcktId, events, [])
              && arrivals == (if old(arrivals) == [] then [] else old(arrivals)[1..])
              && sent == old(sent) + [RequestFrame(local, FrameDest(device, command), a, pcktId, payload)]
    {
      hide RequestFrame, FreshId, Collect, AddressingOf, FrameDest;
      var frame := BuildL2Dest(FrameDest(device, command), AddressingOf(device, command, appSerial), payload);
      SendFrame(frame);
      reply := CollectReply(device.address, events);
    }

    /** One request to one device: a new packet id for every attempt, at most MAX_RETRY attempts. */
    method RequestDevice(device: Device, command: dword, first: dword, last: dword, events: bool)
      returns (reply: Reply)
      requires |device.address| == 6
      modifies this
      ensures var a := AddressingOf(device, command, appSerial);
              var payload := Quad(command) + Quad(first) + Quad(last);
              var (result, id, n) := Attempts(old(stream), old(arrivals), a, device.address, old(pcktId), payload,
                                              events, MAX_RETRY);
              && reply == result && pcktId == id && |sent| == |old(sent)| + n && old(sent) <= sent
              && sent[|sent| - 1] == RequestFrame(local, FrameDest(device, command), a, id, payload)
      ensures |sent| <= |old(sent)| + 3 && (reply.TimedOut? ==> |sent| == |old(sent)| + 3)
    {
      hide RequestFrame, FreshId, Collect, Quad, AddressingOf, FrameDest, Attempts;
      var payload := Quad(command) + Quad(first) + Quad(last);
      ghost var a := AddressingOf(device, command, appSerial);
      ghost var goal := Attempts(stream, arrivals, a, device.address, pcktId, payload, events, MAX_RETRY);
      var retries := MAX_RETRY;
      while true
        invariant 0 < retries <= MAX_RETRY && |sent| == |old(sent)| + (MAX_RETRY - retries) && old(sent) <= sent
        invariant var (r, id, n) := Attempts(stream, arrivals, a, device.address, pcktId, payload, events, retries);
                  goal == (r, id, n + MAX_RETRY - retries)
        decreases retries
      {
        ghost var s, ss, id := stream, arrivals, pcktId;
        reply := TryDevice(device, command, payload, events);
        AttemptMade(s, ss, a, device.address, id, payload, events, retries, reply, stream, arrivals, pcktId);
        if !reply.TimedOut? || retries == 1 { return; }
        retries := retries - 1;
      }
    }
  }

  lemma FrameIsWritten(local: seq<byte>, dest: seq<byte>, a: Addressing, id: word, payload: seq<byte>,
                       buf: seq<byte>, frame: seq<byte>)
    requires var head := HeaderStart(a) + Pair(Tagged(id));
             buf == [FLAG, 0, 0, 0] + local + dest + Pair(1) + [FLAG] + Escape(head) + Escape(payload)
                    + Pair(XorWords(Run(Run(INITIAL, head), payload), 0xFFFF)) + [FLAG]
    requires IsFinished(frame, buf)
    ensures frame == RequestFrame(local, dest, a, id, payload)
  {
    hide Escape, Run, HeaderStart, L1Header, IsFinished, XorWords;
    var head := HeaderStart(a) + Pair(Tagged(id));
    EscapeSplit(head, payload);
    RunSplit(INITIAL, head, payload);
    var packet := WirePacket(Body(a, id, payload));
    assert buf == [FLAG, 0, 0, 0] + local + dest + Pair(1) + packet;
    FinishedHeader(frame, buf, local, dest, 1, packet);
  }

  /** The two bytes before the closing flag tell whether this attempt's check sequence is clean. */
  lemma CheckBytes(local: seq<byte>, dest: seq<byte>, a: Addressing, start: word, k: nat, payload: seq<byte>)
    ensures var frame := RequestFrame(local, dest, a, IdAfter(start, k), payload);
            |frame| >= 3 &&
            var lo, hi := frame[|frame| - 3], frame[|frame| - 2];
            Clean(Attempt(a, start, k, payload)) <==> lo != 0x7D && lo != 0x7E && hi != 0x7D && hi != 0x7E
  {
    hide Escape, L1Header, Check, Body;
  }

  lemma FirstCleanIs(a: Addressing, id: word, payload: seq<byte>, k: nat)
    requires k >= 1 && Clean(Attempt(a, id, k, payload))
    requires forall j | 1 <= j < k :: !Clean(Attempt(a, id, j, payload))
    ensures FreshId(a, id, payload) == IdAfter(id, k)
  {
    hide Attempt, Clean;
    var n := FirstClean(a, id, payload, 1);
    assert n == k;
  }
}
