/**
 The poll loop over one connection: sessions, the memory of refused queries, and the optional
 recording of every exchange.
 */
module Collector {
  import opened Wrappers

  datatype Kind =
    | EnergyProduction | SpotDcPower | SpotDcVoltage | SpotAcPower | SpotAcVoltage | SpotGridFrequency
    | SpotAcTotalPower | TypeLabel | OperationTime | SoftwareVersion | DeviceStatus | GridRelayStatus
    | BatteryChargeStatus | BatteryInfo | InverterTemperature | MeteringGridMsTotW | ConsumptionEnergy
    | ConsumptionPower | DayArchive | MonthArchive | EventArchive | MonthOffsetProbe | ETodayFallback

  /** Computations over the decoded state between the requests. */
  datatype Rule = MarkBatteries | DeriveValues | OffsetsProbed | ClearEvents

  /** One step of a cycle's script; `window` tells apart the requests of one kind. */
  datatype Step = Ask(kind: Kind, window: int) | Compute(rule: Rule)

  datatype Reply = Reply(frames: map<int, seq<string>>, unsupported: seq<int>)

  const NO_REPLY: Reply := Reply(map[], [])

  type Refusals = map<int, set<Kind>>

  /** Everything that happened on the connection, in order. */
  datatype Entry =
    | Began(ok: bool)
    | Loaded(devices: seq<int>, remembered: Refusals)
    | LoggedIn(ok: bool)
    | ClockSet(ok: bool)
    | Sent(kind: Kind, addressed: seq<int>, reply: Option<Reply>)
    | Skipped(kind: Kind, addressed: seq<int>)
    | Ended

  type Log = seq<Entry>

  /** A connection answers from what happened on it so far. */
  datatype Connection = Connection(begin: Log -> bool, login: Log -> bool, sync: Log -> bool, devices: Log -> seq<int>,
                                   answer: (Log, Step) -> Option<Reply>)

  /** Decoding: the state of a new session, the effect of a step, and whether an optional query applies. */
  datatype Decoder<!D> = Decoder(rebuild: (D, seq<int>) -> D, absorb: (D, Step, Option<Reply>) -> D, wants: (D, Step) -> bool)

  datatype State<D> = State(log: Log, refused: Refusals, store: Option<Refusals>, decoded: D)

  // ---------------------------------------------------------------- refusals

  predicate Refuses(m: Refusals, serial: int, kind: Kind) { serial in m && kind in m[serial] }

  predicate AllRefuse(m: Refusals, serials: seq<int>, kind: Kind) {
    forall i | 0 <= i < |serials| :: Refuses(m, serials[i], kind)
  }

  function AddRefusal(m: Refusals, serial: int, kind: Kind): Refusals {
    m[serial := (if serial in m then m[serial] else {}) + {kind}]
  }

  function AddRefusals(m: Refusals, serials: seq<int>, kind: Kind): Refusals {
    if serials == [] then m
    else AddRefusal(AddRefusals(m, serials[..|serials| - 1], kind), serials[|serials| - 1], kind)
  }

  lemma AddRefusalsStep(m: Refusals, serials: seq<int>, i: nat, kind: Kind)
    requires i < |serials|
    ensures AddRefusals(m, serials[..i + 1], kind) == AddRefusal(AddRefusals(m, serials[..i], kind), serials[i], kind)
  {
    hide AddRefusal;
    assert serials[..i + 1][..i] == serials[..i];
  }

  lemma AddOne(m: Refusals, serial: int, kind: Kind, s: int, k: Kind)
    ensures Refuses(AddRefusal(m, serial, kind), s, k) <==> Refuses(m, s, k) || (k == kind && s == serial)
  {}

  lemma {:induction false} AddRefusalsMeaning(m: Refusals, serials: seq<int>, kind: Kind, s: int, k: Kind)
    ensures Refuses(AddRefusals(m, serials, kind), s, k) <==> Refuses(m, s, k) || (k == kind && s in serials)
  {
    if serials != [] {
      var front := serials[..|serials| - 1];
      assert serials == front + [serials[|serials| - 1]];
      AddRefusalsMeaning(m, front, kind, s, k);
      AddOne(AddRefusals(m, front, kind), serials[|serials| - 1], kind, s, k);
      hide AddRefusal, Refuses;
    }
  }

  /** The remembered refusals of the devices of this session. */
  function Load(store: Refusals, devices: seq<int>): Refusals { map d | d in devices && d in store && store[d] != {} :: store[d] }

  // ---------------------------------------------------------------- one request, a script, a cycle

  predicate EveryDeviceRefused<D>(s: State<D>, kind: Kind, addressed: seq<int>) {
    s.store.Some? && addressed != [] && AllRefuse(s.refused, addressed, kind)
  }

  function Remember<D>(s: State<D>, kind: Kind, reply: Option<Reply>): State<D> {
    if s.store.Some? && reply.Some? then
      s.(refused := AddRefusals(s.refused, reply.value.unsupported, kind),
      store := Some(AddRefusals(s.store.value, reply.value.unsupported, kind)))
    else s
  }

  function Request<D>(s: State<D>, conn: Connection, step: Step): (State<D>, Option<Reply>)
    requires step.Ask?
  {
    var addressed := conn.devices(s.log);
    if EveryDeviceRefused(s, step.kind, addressed) then
      (s.(log := s.log + [Skipped(step.kind, addressed)]), Some(NO_REPLY))
    else
      var reply := conn.answer(s.log, step);
      (Remember(s, step.kind, reply).(log := s.log + [Sent(step.kind, addressed, reply)]), reply)
  }

  predicate IsOptional(k: Kind) {
    k == BatteryChargeStatus || k == BatteryInfo || k == GridRelayStatus || k == ETodayFallback || k == MonthOffsetProbe
    || k == EventArchive
  }

  function Perform<D>(s: State<D>, conn: Connection, dec: Decoder<D>, step: Step): State<D> {
    if step.Compute? then s.(decoded := dec.absorb(s.decoded, step, None))
    else if IsOptional(step.kind) && !dec.wants(s.decoded, step) then s
    else
      var (t, reply) := Request(s, conn, step);
      t.(decoded := dec.absorb(t.decoded, step, reply))
  }

  function Exec<D>(s: State<D>, conn: Connection, dec: Decoder<D>, steps: seq<Step>): State<D> {
    if steps == [] then s else Perform(Exec(s, conn, dec, steps[..|steps| - 1]), conn, dec, steps[|steps| - 1])
  }

  function Begin<D>(s: State<D>, conn: Connection): State<D> { s.(log := s.log + [Began(conn.begin(s.log))]) }

  /** Fresh inverter state and this session's refusals. */
  function Prepare<D>(s: State<D>, conn: Connection, dec: Decoder<D>): State<D> {
    var devices := conn.devices(s.log);
    var loaded := if s.store.Some? then Load(s.store.value, devices) else map[];
    State(s.log + [Loaded(devices, loaded)], loaded, s.store, dec.rebuild(s.decoded, devices))
  }

  function Login<D>(s: State<D>, conn: Connection): State<D> { s.(log := s.log + [LoggedIn(conn.login(s.log))]) }

  function SyncClock<D>(s: State<D>, conn: Connection): State<D> { s.(log := s.log + [ClockSet(conn.sync(s.log))]) }

  function End<D>(s: State<D>): State<D> { s.(log := s.log + [Ended]) }

  function Cycle<D>(s: State<D>, conn: Connection, dec: Decoder<D>, steps: seq<Step>): State<D> {
    var begun := Begin(s, conn);
    if !conn.begin(s.log) then begun
    else
      var ready := Prepare(begun, conn, dec);
      var login := Login(ready, conn);
      End(if conn.login(ready.log) then Exec(SyncClock(login, conn), conn, dec, steps) else login)
  }

  // ---------------------------------------------------------------- the script of a cycle

  function FirstSteps(): seq<Step> {
    [Ask(SoftwareVersion, 0), Ask(TypeLabel, 0)]
    + [Compute(MarkBatteries), Ask(BatteryChargeStatus, 0), Ask(BatteryInfo, 0), Ask(MeteringGridMsTotW, 0)]
  }

  function StatusSteps(): seq<Step> {
    [Ask(DeviceStatus, 0), Ask(InverterTemperature, 0), Ask(GridRelayStatus, 0), Ask(EnergyProduction, 0)]
    + [Ask(ETodayFallback, 0)]
  }

  function SpotSteps(): seq<Step> {
    [Ask(OperationTime, 0), Ask(SpotDcPower, 0), Ask(SpotDcVoltage, 0), Ask(SpotAcPower, 0)]
    + [Ask(SpotAcVoltage, 0), Ask(SpotAcTotalPower, 0), Compute(DeriveValues), Ask(SpotGridFrequency, 0)]
  }

  /** The queries of every cycle of the service. */
  function QuerySequence(pollConsumption: bool): seq<Step> {
    FirstSteps() + (if pollConsumption then [Ask(ConsumptionEnergy, 0), Ask(ConsumptionPower, 0)] else [])
    + StatusSteps() + SpotSteps()
  }

  function Months(kind: Kind, n: nat): seq<Step> { seq(n, i => Ask(kind, i)) }

  function DaySteps(fetchDay: bool): seq<Step> {
    if fetchDay then [Ask(MonthOffsetProbe, 0), Compute(OffsetsProbed), Ask(DayArchive, 0)] else []
  }

  function ArchiveSteps(daily: Option<(nat, nat)>): seq<Step> {
    if daily.Some? then Months(MonthArchive, daily.value.0) + [Compute(ClearEvents)] + Months(EventArchive, daily.value.1) else []
  }

  function CycleSteps(pollConsumption: bool, fetchDay: bool, daily: Option<(nat, nat)>): seq<Step> {
    QuerySequence(pollConsumption) + DaySteps(fetchDay) + ArchiveSteps(daily)
  }

  // ---------------------------------------------------------------- whole runs

  /** A poll cycle, or a change of the remembered refusals between cycles. */
  datatype Happening = Poll(steps: seq<Step>) | StoreBecomes(store: Refusals)

  function Happen<D>(s: State<D>, conn: Connection, dec: Decoder<D>, h: Happening): State<D> {
    match h
    case Poll(steps) => Cycle(s, conn, dec, steps)
    case StoreBecomes(m) => if s.store.Some? then s.(store := Some(m)) else s
  }

  function Run<D>(s: State<D>, conn: Connection, dec: Decoder<D>, hs: seq<Happening>): State<D> {
    if hs == [] then s else Happen(Run(s, conn, dec, hs[..|hs| - 1]), conn, dec, hs[|hs| - 1])
  }

  function Start<D>(store: Option<Refusals>, decoded: D): State<D> { State([], map[], store, decoded) }

  // ---------------------------------------------------------------- a query is sent only when it may be answered

  /** The refusals known at the end of a log: those loaded at the session's start and those answered since. */
  function Known(log: Log): Refusals {
    if log == [] then map[]
    else
      var before, e := Known(log[..|log| - 1]), log[|log| - 1];
      match e
      case Loaded(_, remembered) => remembered
      case Sent(kind, _, reply) => if reply.Some? then AddRefusals(before, reply.value.unsupported, kind) else before
      case _ => before
  }

  /** Every query sent had no device to address, or one that was not known to refuse it. */
  predicate Justified(log: Log) {
    forall i | 0 <= i < |log| && log[i].Sent? ::
      log[i].addressed == [] || !AllRefuse(Known(log[..i]), log[i].addressed, log[i].kind)
  }

  /** ... and every query skipped had devices, all of which refused it. */
  predicate SkipsAreRefused(log: Log) {
    forall i | 0 <= i < |log| && log[i].Skipped? ::
      log[i].addressed != [] && AllRefuse(Known(log[..i]), log[i].addressed, log[i].kind)
  }

  predicate Tracks<D>(s: State<D>) {
    && (s.store.Some? ==> s.refused == Known(s.log) && Justified(s.log))
    && SkipsAreRefused(s.log)
  }

  lemma Extend(log: Log, e: Entry)
    ensures (log + [e])[..|log|] == log
    ensures forall i | 0 <= i < |log| :: (log + [e])[..i] == log[..i]
  {}

  lemma LogGrows(log: Log, e: Entry)
    requires Justified(log)
    requires e.Sent? ==> e.addressed == [] || !AllRefuse(Known(log), e.addressed, e.kind)
    ensures Justified(log + [e])
  {
    Extend(log, e);
    hide Known, AllRefuse;
  }

  lemma SkipsGrow(log: Log, e: Entry)
    requires SkipsAreRefused(log)
    requires e.Skipped? ==> e.addressed != [] && AllRefuse(Known(log), e.addressed, e.kind)
    ensures SkipsAreRefused(log + [e])
  {
    Extend(log, e);
    hide Known, AllRefuse;
  }

  /** An entry that changes no refusals and sends nothing. */
  lemma PlainEntry<D>(s: State<D>, t: State<D>, e: Entry)
    requires Tracks(s) && t.log == s.log + [e] && t.refused == s.refused && t.store == s.store
    requires !e.Sent? && !e.Loaded? && !e.Skipped?
    ensures Tracks(t)
  {
    Extend(s.log, e);
    if s.store.Some? { LogGrows(s.log, e); }
    SkipsGrow(s.log, e);
    hide Justified, SkipsAreRefused;
  }

  lemma RequestTracks<D>(s: State<D>, conn: Connection, step: Step)
    requires Tracks(s) && step.Ask?
    ensures Tracks(Request(s, conn, step).0)
  {
    var addressed := conn.devices(s.log);
    var e := Request(s, conn, step).0.log[|s.log|];
    Extend(s.log, e);
    if s.store.Some? { LogGrows(s.log, e); }
    SkipsGrow(s.log, e);
    hide Justified, SkipsAreRefused, AllRefuse, AddRefusals;
  }

  lemma {:induction false} ExecTracks<D>(s: State<D>, conn: Connection, dec: Decoder<D>, steps: seq<Step>)
    requires Tracks(s)
    ensures Tracks(Exec(s, conn, dec, steps))
  {
    hide Tracks, Request;
    if steps != [] {
      var before, step := Exec(s, conn, dec, steps[..|steps| - 1]), steps[|steps| - 1];
      ExecTracks(s, conn, dec, steps[..|steps| - 1]);
      if step.Ask? { RequestTracks(before, conn, step); }
      DecodingTracks(before, Perform(before, conn, dec, step).decoded);
      if step.Ask? { DecodingTracks(Request(before, conn, step).0, Perform(before, conn, dec, step).decoded); }
    }
  }

  lemma DecodingTracks<D>(s: State<D>, d: D)
    requires Tracks(s)
    ensures Tracks(s.(decoded := d))
  {}

  lemma PrepareTracks<D>(s: State<D>, conn: Connection, dec: Decoder<D>)
    requires Tracks(s)
    ensures Tracks(Prepare(s, conn, dec))
  {
    var e := Prepare(s, conn, dec).log[|s.log|];
    Extend(s.log, e);
    if s.store.Some? { LogGrows(s.log, e); }
    SkipsGrow(s.log, e);
    hide Justified, SkipsAreRefused, Load;
  }

  lemma CycleTracks<D>(s: State<D>, conn: Connection, dec: Decoder<D>, steps: seq<Step>)
    requires Tracks(s)
    ensures Tracks(Cycle(s, conn, dec, steps))
  {
    hide Tracks, Exec, Prepare;
    var begun := Begin(s, conn);
    PlainEntry(s, begun, Began(conn.begin(s.log)));
    if conn.begin(s.log) {
      var ready := Prepare(begun, conn, dec);
      PrepareTracks(begun, conn, dec);
      var login := Login(ready, conn);
      PlainEntry(ready, login, LoggedIn(conn.login(ready.log)));
      var last := login;
      if conn.login(ready.log) {
        var synced := SyncClock(login, conn);
        PlainEntry(login, synced, ClockSet(conn.sync(login.log)));
        ExecTracks(synced, conn, dec, steps);
        last := Exec(synced, conn, dec, steps);
      }
      PlainEntry(last, End(last), Ended);
    }
  }

  /** In every run a query goes out only if no store is set, no device is addressed or one may still answer it. */
  lemma {:induction false} QueriesAreJustified<D>(store: Option<Refusals>, d: D, conn: Connection, dec: Decoder<D>,
                                                  hs: seq<Happening>)
    ensures Tracks(Run(Start(store, d), conn, dec, hs))
  {
    hide Tracks, Cycle;
    if hs == [] {
      StartTracks(store, d);
    } else {
      var s := Run(Start(store, d), conn, dec, hs[..|hs| - 1]);
      QueriesAreJustified(store, d, conn, dec, hs[..|hs| - 1]);
      match hs[|hs| - 1]
      case Poll(steps) => CycleTracks(s, conn, dec, steps);
      case StoreBecomes(m) => if s.store.Some? { StoreTracks(s, m); }
    }
  }

  lemma StartTracks<D>(store: Option<Refusals>, d: D)
    ensures Tracks(Start(store, d))
  {}

  lemma StoreTracks<D>(s: State<D>, m: Refusals)
    requires Tracks(s) && s.store.Some?
    ensures Tracks(s.(store := Some(m)))
  {}

  // ---------------------------------------------------------------- a refused query is not repeated

  /** Every refusal answered in the whole log, over all its sessions. */
  function Ever(log: Log): Refusals {
    if log == [] then map[]
    else
      var before, e := Ever(log[..|log| - 1]), log[|log| - 1];
      if e.Sent? && e.reply.Some? then AddRefusals(before, e.reply.value.unsupported, e.kind) else before
  }

  ghost predicate Covers(m: Refusals, n: Refusals) { forall s, k | Refuses(n, s, k) :: Refuses(m, s, k) }

  /** The devices whose refusals were loaded last. */
  function LoadedDevices(log: Log): seq<int> {
    if log == [] then []
    else
      match log[|log| - 1]
      case Loaded(devices, _) => devices
      case _ => LoadedDevices(log[..|log| - 1])
  }

  /** The refusals answered since then. */
  function Since(log: Log): Refusals {
    if log == [] then map[]
    else
      match log[|log| - 1]
      case Loaded(_, _) => map[]
      case Sent(kind, _, reply) =>
        var before := Since(log[..|log| - 1]);
        if reply.Some? then AddRefusals(before, reply.value.unsupported, kind) else before
      case _ => Since(log[..|log| - 1])
  }

  /** Some addressed device was not among those loaded and has not refused the query since. */
  predicate MeetsNewDevice(log: Log, addressed: seq<int>, kind: Kind) {
    exists i | 0 <= i < |addressed| :: addressed[i] !in LoadedDevices(log) && !Refuses(Since(log), addressed[i], kind)
  }

  /** Entry `e` asks, or skips, a query that every device it addresses has refused at some time before. */
  predicate AsksRefused(log: Log, e: Entry) {
    (e.Sent? || e.Skipped?) && e.addressed != [] && AllRefuse(Ever(log), e.addressed, e.kind)
  }

  /** A query refused by all its devices is sent again exactly when it meets a device that was not loaded. */
  predicate RepeatsExactlyWhen(log: Log) {
    forall j | 0 <= j < |log| && AsksRefused(log[..j], log[j]) ::
      log[j].Sent? <==> MeetsNewDevice(log[..j], log[j].addressed, log[j].kind)
  }

  ghost predicate Remembers<D(!new)>(s: State<D>) {
    s.store.Some? && Covers(s.store.value, Ever(s.log)) && RepeatsExactlyWhen(s.log)
  }

  /** The session knows every refusal of the devices it loaded, and of others those answered since. */
  ghost predicate InSession<D(!new)>(s: State<D>) {
    && (forall a, k | a in LoadedDevices(s.log) && Refuses(Ever(s.log), a, k) :: Refuses(s.refused, a, k))
    && (forall a, k | a !in LoadedDevices(s.log) :: Refuses(s.refused, a, k) <==> Refuses(Since(s.log), a, k))
  }

  lemma RepeatsGrows(log: Log, e: Entry)
    requires RepeatsExactlyWhen(log)
    requires AsksRefused(log, e) ==> (e.Sent? <==> MeetsNewDevice(log, e.addressed, e.kind))
    ensures RepeatsExactlyWhen(log + [e])
  {
    Extend(log, e);
    hide AsksRefused, MeetsNewDevice;
  }

  lemma LogFactsGrow(log: Log, e: Entry)
    requires !e.Loaded?
    ensures LoadedDevices(log + [e]) == LoadedDevices(log)
    ensures if e.Sent? && e.reply.Some? then
              && Ever(log + [e]) == AddRefusals(Ever(log), e.reply.value.unsupported, e.kind)
              && Since(log + [e]) == AddRefusals(Since(log), e.reply.value.unsupported, e.kind)
            else Ever(log + [e]) == Ever(log) && Since(log + [e]) == Since(log)
  {
    Extend(log, e);
    hide AddRefusals;
  }

  lemma QuietEntry<D(!new)>(s: State<D>, t: State<D>, e: Entry)
    requires Remembers(s) && t.log == s.log + [e] && t.store == s.store && !e.Sent? && !e.Skipped? && !e.Loaded?
    ensures Remembers(t)
    ensures InSession(s) && t.refused == s.refused ==> InSession(t)
  {
    LogFactsGrow(s.log, e);
    RepeatsGrows(s.log, e);
    hide RepeatsExactlyWhen, Ever, Since, LoadedDevices, Refuses;
  }

  lemma AddBoth(m: Refusals, n: Refusals, serials: seq<int>, kind: Kind)
    requires Covers(m, n)
    ensures Covers(AddRefusals(m, serials, kind), AddRefusals(n, serials, kind))
  {
    var m', n' := AddRefusals(m, serials, kind), AddRefusals(n, serials, kind);
    forall s, k | Refuses(n', s, k)
      ensures Refuses(m', s, k)
    {
      AddRefusalsMeaning(m, serials, kind, s, k);
      AddRefusalsMeaning(n, serials, kind, s, k);
    }
  }

  lemma AnswerKeepsSession<D(!new)>(s: State<D>, t: State<D>, e: Entry)
    requires InSession(s) && s.store.Some? && e.Sent? && t == Remember(s, e.kind, e.reply).(log := s.log + [e])
    ensures InSession(t)
  {
    LogFactsGrow(s.log, e);
    hide Ever, Since, LoadedDevices;
    if e.reply.Some? {
      var serials := e.reply.value.unsupported;
      forall a, k
        ensures Refuses(t.refused, a, k) <==> Refuses(s.refused, a, k) || (k == e.kind && a in serials)
        ensures Refuses(Ever(t.log), a, k) <==> Refuses(Ever(s.log), a, k) || (k == e.kind && a in serials)
        ensures Refuses(Since(t.log), a, k) <==> Refuses(Since(s.log), a, k) || (k == e.kind && a in serials)
      {
        AddRefusalsMeaning(s.refused, serials, e.kind, a, k);
        AddRefusalsMeaning(Ever(s.log), serials, e.kind, a, k);
        AddRefusalsMeaning(Since(s.log), serials, e.kind, a, k);
      }
      hide Refuses, AddRefusals;
    }
  }

  /** What the session knows decides: refused by all, unless it meets a device that was not loaded. */
  lemma SessionDecides<D(!new)>(s: State<D>, addressed: seq<int>, kind: Kind)
    requires InSession(s) && AllRefuse(Ever(s.log), addressed, kind)
    ensures !AllRefuse(s.refused, addressed, kind) <==> MeetsNewDevice(s.log, addressed, kind)
  {
    hide Ever, Since, LoadedDevices, Refuses;
  }

  lemma SkipRemembers<D(!new)>(s: State<D>, t: State<D>, addressed: seq<int>, kind: Kind)
    requires Remembers(s) && InSession(s) && EveryDeviceRefused(s, kind, addressed)
    requires t.log == s.log + [Skipped(kind, addressed)] && t.store == s.store && t.refused == s.refused
    ensures Remembers(t) && InSession(t)
  {
    var e := Skipped(kind, addressed);
    if AllRefuse(Ever(s.log), addressed, kind) { SessionDecides(s, addressed, kind); }
    hide RepeatsExactlyWhen, Ever, Since, LoadedDevices, AllRefuse, Refuses;
    RepeatsGrows(s.log, e);
    LogFactsGrow(s.log, e);
  }

  lemma SendRemembers<D(!new)>(s: State<D>, t: State<D>, addressed: seq<int>, kind: Kind, reply: Option<Reply>)
    requires Remembers(s) && InSession(s) && !EveryDeviceRefused(s, kind, addressed)
    requires t == Remember(s, kind, reply).(log := s.log + [Sent(kind, addressed, reply)])
    ensures Remembers(t) && InSession(t)
  {
    var e := Sent(kind, addressed, reply);
    if AllRefuse(Ever(s.log), addressed, kind) { SessionDecides(s, addressed, kind); }
    AnswerKeepsSession(s, t, e);
    hide RepeatsExactlyWhen, Ever, Since, LoadedDevices, AllRefuse, AddRefusals, Covers, Refuses, InSession;
    RepeatsGrows(s.log, e);
    LogFactsGrow(s.log, e);
    if reply.Some? { AddBoth(s.store.value, Ever(s.log), reply.value.unsupported, kind); }
  }

  lemma RequestRemembers<D(!new)>(s: State<D>, conn: Connection, step: Step)
    requires Remembers(s) && InSession(s) && step.Ask?
    ensures Remembers(Request(s, conn, step).0) && InSession(Request(s, conn, step).0)
  {
    hide Remembers, InSession, EveryDeviceRefused;
    var t := Request(s, conn, step).0;
    var addressed := conn.devices(s.log);
    if EveryDeviceRefused(s, step.kind, addressed) {
      SkipRemembers(s, t, addressed, step.kind);
    } else {
      SendRemembers(s, t, addressed, step.kind, conn.answer(s.log, step));
    }
  }

  lemma {:induction false} ExecRemembers<D(!new)>(s: State<D>, conn: Connection, dec: Decoder<D>, steps: seq<Step>)
    requires Remembers(s) && InSession(s)
    ensures Remembers(Exec(s, conn, dec, steps)) && InSession(Exec(s, conn, dec, steps))
  {
    hide RepeatsExactlyWhen, Ever, Since, Covers, Request, Refuses, LoadedDevices;
    if steps != [] {
      var before, step := Exec(s, conn, dec, steps[..|steps| - 1]), steps[|steps| - 1];
      ExecRemembers(s, conn, dec, steps[..|steps| - 1]);
      if step.Ask? { RequestRemembers(before, conn, step); }
    }
  }

  lemma LoadGrows(log: Log, devices: seq<int>, loaded: Refusals)
    ensures var all := log + [Loaded(devices, loaded)];
            LoadedDevices(all) == devices && Since(all) == map[] && Ever(all) == Ever(log)
  {
    Extend(log, Loaded(devices, loaded));
  }

  lemma PrepareRemembers<D(!new)>(s: State<D>, conn: Connection, dec: Decoder<D>)
    requires Remembers(s)
    ensures Remembers(Prepare(s, conn, dec)) && InSession(Prepare(s, conn, dec))
  {
    var t, devices := Prepare(s, conn, dec), conn.devices(s.log);
    RepeatsGrows(s.log, t.log[|s.log|]);
    LoadGrows(s.log, devices, t.refused);
    hide RepeatsExactlyWhen, Ever, Since, LoadedDevices;
  }

  lemma CycleRemembers<D(!new)>(s: State<D>, conn: Connection, dec: Decoder<D>, steps: seq<Step>)
    requires Remembers(s)
    ensures Remembers(Cycle(s, conn, dec, steps))
  {
    hide Remembers, InSession, Exec, Prepare;
    var begun := Begin(s, conn);
    QuietEntry(s, begun, Began(conn.begin(s.log)));
    if conn.begin(s.log) {
      var ready := Prepare(begun, conn, dec);
      PrepareRemembers(begun, conn, dec);
      var login := Login(ready, conn);
      QuietEntry(ready, login, LoggedIn(conn.login(ready.log)));
      var last := login;
      if conn.login(ready.log) {
        var synced := SyncClock(login, conn);
        QuietEntry(login, synced, ClockSet(conn.sync(login.log)));
        ExecRemembers(synced, conn, dec, steps);
        last := Exec(synced, conn, dec, steps);
      }
      QuietEntry(last, End(last), Ended);
    }
  }

  /** The store may change between cycles, but it forgets nothing. */
  ghost predicate StoreIsKept<D(!new)>(s: State<D>, conn: Connection, dec: Decoder<D>, hs: seq<Happening>) {
    forall i | 0 <= i < |hs| && hs[i].StoreBecomes? ::
      var t := Run(s, conn, dec, hs[..i]);
      t.store.Some? ==> Covers(hs[i].store, t.store.value)
  }

  /**
   Over all cycles, on any connection, while the store keeps the refusals: a query that every
   addressed device has refused is sent again if and only if some addressed device was not among
   those whose refusals were loaded for the session and has not refused it since.
   */
  lemma {:induction false} RefusedQueriesAreRepeatedExactlyWhen<D(!new)>(store: Refusals, d: D, conn: Connection, dec: Decoder<D>,
                                                                         hs: seq<Happening>)
    requires StoreIsKept(Start(Some(store), d), conn, dec, hs)
    ensures Remembers(Run(Start(Some(store), d), conn, dec, hs))
  {
    hide Remembers, Cycle, Covers;
    if hs == [] {
      StartRemembers(store, d);
    } else {
      var front := hs[..|hs| - 1];
      assert forall i | 0 <= i < |front| :: front[..i] == hs[..i];
      var s := Run(Start(Some(store), d), conn, dec, front);
      RefusedQueriesAreRepeatedExactlyWhen(store, d, conn, dec, front);
      match hs[|hs| - 1]
      case Poll(steps) => CycleRemembers(s, conn, dec, steps);
      case StoreBecomes(m) => StoreRemembers(s, m);
    }
  }

  lemma StartRemembers<D(!new)>(store: Refusals, d: D)
    ensures Remembers(Start(Some(store), d))
  {}

  lemma StoreRemembers<D(!new)>(s: State<D>, m: Refusals)
    requires Remembers(s) && (s.store.Some? ==> Covers(m, s.store.value))
    ensures s.store.Some? && Remembers(s.(store := Some(m)))
  {
    hide RepeatsExactlyWhen, Ever;
  }

  /** No query goes to devices that were all loaded and have all refused it at some time before. */
  predicate NoRepeat(log: Log) {
    forall j | 0 <= j < |log| && log[j].Sent? && log[j].addressed != [] &&
               forall i | 0 <= i < |log[j].addressed| :: log[j].addressed[i] in LoadedDevices(log[..j]) ::
      !AllRefuse(Ever(log[..j]), log[j].addressed, log[j].kind)
  }

  /** Over all cycles, on any connection: what all loaded devices have refused is never sent to them again. */
  lemma RefusedQueriesAreNotRepeated<D(!new)>(store: Refusals, d: D, conn: Connection, dec: Decoder<D>, hs: seq<Happening>)
    requires StoreIsKept(Start(Some(store), d), conn, dec, hs)
    ensures NoRepeat(Run(Start(Some(store), d), conn, dec, hs).log)
  {
    RefusedQueriesAreRepeatedExactlyWhen(store, d, conn, dec, hs);
    hide Run, Ever, Since, LoadedDevices, AllRefuse, Covers, StoreIsKept;
  }


  /** What a cycle with one query writes to the log on a connection where every step succeeds. */
  function SessionStart(loaded: seq<int>, remembered: Refusals): Log {
    [Began(true), Loaded(loaded, remembered), LoggedIn(true), ClockSet(true)]
  }

  lemma OneQueryCycle<D>(s: State<D>, conn: Connection, dec: Decoder<D>, kind: Kind, loaded: seq<int>, addressed: seq<int>,
                         reply: Reply)
    requires s.store.Some? && !IsOptional(kind) && (forall log :: conn.begin(log) && conn.login(log) && conn.sync(log))
    requires conn.devices(s.log + [Began(true)]) == loaded
    requires var log := s.log + SessionStart(loaded, Load(s.store.value, loaded));
             conn.devices(log) == addressed && conn.answer(log, Ask(kind, 0)) == Some(reply)
    requires addressed != [] && !AllRefuse(Load(s.store.value, loaded), addressed, kind)
    ensures var t := Cycle(s, conn, dec, [Ask(kind, 0)]);
            && t.log == s.log + SessionStart(loaded, Load(s.store.value, loaded)) + [Sent(kind, addressed, Some(reply)), Ended]
            && t.store == Some(AddRefusals(s.store.value, reply.unsupported, kind))
  {
    hide Load, AllRefuse, AddRefusals;
    var begun := Begin(s, conn);
    var ready := Prepare(begun, conn, dec);
    var synced := SyncClock(Login(ready, conn), conn);
    assert synced.log == s.log + SessionStart(loaded, Load(s.store.value, loaded));
    var steps := [Ask(kind, 0)];
    assert steps[..0] == [];
    assert Exec(synced, conn, dec, steps) == Perform(synced, conn, dec, steps[0]);
  }

  /** The logs before and after such a session: what was ever refused, and what was loaded last. */
  lemma SessionFacts(before: Log, loaded: seq<int>, remembered: Refusals, kind: Kind, addressed: seq<int>, reply: Reply)
    ensures var ready := before + SessionStart(loaded, remembered);
            && LoadedDevices(ready) == loaded && Since(ready) == map[] && Ever(ready) == Ever(before)
            && Ever(ready + [Sent(kind, addressed, Some(reply)), Ended]) == AddRefusals(Ever(before), reply.unsupported, kind)
  {
    var a := before + [Began(true)];
    var b := a + [Loaded(loaded, remembered)];
    var c := b + [LoggedIn(true)];
    var ready, e := c + [ClockSet(true)], Sent(kind, addressed, Some(reply));
    LogFactsGrow(before, Began(true));
    LoadGrows(a, loaded, remembered);
    LogFactsGrow(b, LoggedIn(true));
    LogFactsGrow(c, ClockSet(true));
    LogFactsGrow(ready, e);
    LogFactsGrow(ready + [e], Ended);
    hide Ever, Since, LoadedDevices, AddRefusals;
    assert ready == before + SessionStart(loaded, remembered);
    assert ready + [e] + [Ended] == ready + [e, Ended];
  }

  /** A serial number that is known from the login on only, except in the first session. */
  function LateSerial(): Connection {
    Connection(_ => true, _ => true, _ => true,
               (log: Log) => if |log| > 1 && log[|log| - 1].Began? then [0] else [7],
               (_, _) => Some(Reply(map[], [7])))
  }

  /**
   There the refusals are loaded under serial 0, so the second session sends device 7 the query
   that it has refused, although the store has kept the refusal.
   */
  lemma LateSerialIsAskedAgain(dec: Decoder<int>)
    ensures var poll := Poll([Ask(SpotDcPower, 0)]);
            var log := Run(Start(Some(map[]), 0), LateSerial(), dec, [poll, poll]).log;
            && |log| == 12 && log[10] == Sent(SpotDcPower, [7], Some(Reply(map[], [7])))
            && AllRefuse(Ever(log[..10]), [7], SpotDcPower)
            && MeetsNewDevice(log[..10], [7], SpotDcPower)
            && StoreIsKept(Start(Some(map[]), 0), LateSerial(), dec, [poll, poll])
  {
    var conn, reply, steps := LateSerial(), Reply(map[], [7]), [Ask(SpotDcPower, 0)];
    var poll := Poll(steps);
    var hs := [poll, poll];
    var s0 := Start(Some(map[]), 0);
    var s1 := Cycle(s0, conn, dec, steps);
    var s2 := Cycle(s1, conn, dec, steps);
    RunOfTwo(s0, conn, dec, steps);
    hide Cycle, Run;
    assert Load(map[], [7]) == map[] && [] + [Began(true)] == [Began(true)];
    var seven: seq<int> := [7];
    assert !Refuses(map[], seven[0], SpotDcPower);
    OneQueryCycle(s0, conn, dec, SpotDcPower, [7], seven, reply);
    OneRefusal();
    assert s1.store == Some(map[7 := {SpotDcPower}]);
    assert Load(map[7 := {SpotDcPower}], [0]) == map[];
    OneQueryCycle(s1, conn, dec, SpotDcPower, [0], seven, reply);
    SessionFacts([], [7], map[], SpotDcPower, [7], reply);
    SessionFacts(s1.log, [0], map[], SpotDcPower, [7], reply);
    hide Ever, Since, LoadedDevices, Load, AddRefusals;
    assert [] + SessionStart([7], map[]) == SessionStart([7], map[]);
    assert s2.log[..10] == s1.log + SessionStart([0], map[]);
    assert Ever([]) == map[] by { EverOfNothing(); }
  }

  lemma EverOfNothing()
    ensures Ever([]) == map[]
  {}

  lemma OneRefusal()
    ensures AddRefusals(map[], [7], SpotDcPower) == map[7 := {SpotDcPower}]
  {
    var one: seq<int> := [7];
    assert one[..0] == [];
    var none: Refusals := map[];
    assert AddRefusals(none, one, SpotDcPower) == AddRefusal(none, 7, SpotDcPower);
    var both: set<Kind> := {} + {SpotDcPower};
    assert both == {SpotDcPower};
    assert AddRefusal(none, 7, SpotDcPower) == none[7 := both];
  }

  lemma RunOfTwo<D>(s: State<D>, conn: Connection, dec: Decoder<D>, steps: seq<Step>)
    ensures Run(s, conn, dec, [Poll(steps), Poll(steps)]) == Cycle(Cycle(s, conn, dec, steps), conn, dec, steps)
  {
    hide Cycle;
    var one, two := [Poll(steps)], [Poll(steps), Poll(steps)];
    assert one[..0] == [] && two[..1] == one;
    assert Run(s, conn, dec, one) == Cycle(s, conn, dec, steps);
  }

  // ---------------------------------------------------------------- sessions

  datatype Phase = Outside | Inside | Broken

  function After(p: Phase, e: Entry): Phase {
    match e
    case Began(ok) => if p == Outside then (if ok then Inside else Outside) else Broken
    case Ended => if p == Inside then Outside else Broken
    case _ => if p == Inside then Inside else Broken
  }

  /** Where a log leaves the connection; broken if any step stood outside a session or a session was not ended once. */
  function PhaseOf(log: Log): Phase {
    if log == [] then Outside else After(PhaseOf(log[..|log| - 1]), log[|log| - 1])
  }

  lemma PhaseStep(log: Log, e: Entry)
    ensures PhaseOf(log + [e]) == After(PhaseOf(log), e)
  {
    Extend(log, e);
  }

  lemma {:induction false} ExecStaysInside<D>(s: State<D>, conn: Connection, dec: Decoder<D>, steps: seq<Step>)
    requires PhaseOf(s.log) == Inside
    ensures PhaseOf(Exec(s, conn, dec, steps).log) == Inside
  {
    hide AllRefuse, AddRefusals, PhaseOf;
    if steps != [] {
      var before, step := Exec(s, conn, dec, steps[..|steps| - 1]), steps[|steps| - 1];
      ExecStaysInside(s, conn, dec, steps[..|steps| - 1]);
      if step.Ask? {
        var addressed := conn.devices(before.log);
        PhaseStep(before.log, Skipped(step.kind, addressed));
        PhaseStep(before.log, Sent(step.kind, addressed, conn.answer(before.log, step)));
      }
    }
  }

  lemma CycleIsOneSession<D>(s: State<D>, conn: Connection, dec: Decoder<D>, steps: seq<Step>)
    requires PhaseOf(s.log) == Outside
    ensures PhaseOf(Cycle(s, conn, dec, steps).log) == Outside
  {
    hide Exec, PhaseOf, Load;
    PhaseStep(s.log, Began(conn.begin(s.log)));
    if conn.begin(s.log) {
      var begun := Begin(s, conn);
      var ready := Prepare(begun, conn, dec);
      PhaseStep(begun.log, ready.log[|begun.log|]);
      PhaseStep(ready.log, LoggedIn(conn.login(ready.log)));
      var last := Login(ready, conn);
      if conn.login(ready.log) {
        PhaseStep(last.log, ClockSet(conn.sync(last.log)));
        ExecStaysInside(SyncClock(last, conn), conn, dec, steps);
        last := Exec(SyncClock(last, conn), conn, dec, steps);
      }
      PhaseStep(last.log, Ended);
    }
  }

  /** In every run each session that began is ended exactly once before the next, also when the login failed. */
  lemma {:induction false} SessionsAreClosed<D>(s: State<D>, conn: Connection, dec: Decoder<D>, hs: seq<Happening>)
    requires PhaseOf(s.log) == Outside
    ensures PhaseOf(Run(s, conn, dec, hs).log) == Outside
  {
    hide Cycle, PhaseOf;
    if hs != [] {
      SessionsAreClosed(s, conn, dec, hs[..|hs| - 1]);
      var before := Run(s, conn, dec, hs[..|hs| - 1]);
      if hs[|hs| - 1].Poll? { CycleIsOneSession(before, conn, dec, hs[|hs| - 1].steps); }
    }
  }

  // ---------------------------------------------------------------- what a cycle asks for

  predicate IsRequest(e: Entry, kind: Kind) { (e.Sent? || e.Skipped?) && e.kind == kind }

  /** How often a log records a request of a kind, sent or skipped. */
  function Requests(log: Log, kind: Kind): nat {
    if log == [] then 0
    else Requests(log[..|log| - 1], kind) + if IsRequest(log[|log| - 1], kind) then 1 else 0
  }

  lemma OneMoreEntry(log: Log, e: Entry, kind: Kind)
    ensures Requests(log + [e], kind) == Requests(log, kind) + if IsRequest(e, kind) then 1 else 0
  {
    assert (log + [e])[..|log|] == log;
  }

  function Asks(steps: seq<Step>, kind: Kind): nat {
    if steps == [] then 0 else Asks(steps[..|steps| - 1], kind) + AsksOnce(steps[|steps| - 1], kind)
  }

  function AsksOnce(step: Step, kind: Kind): nat { if step.Ask? && step.kind == kind then 1 else 0 }

  lemma {:induction false} ExecAsks<D>(s: State<D>, conn: Connection, dec: Decoder<D>, steps: seq<Step>, kind: Kind)
    ensures Requests(Exec(s, conn, dec, steps).log, kind) <= Requests(s.log, kind) + Asks(steps, kind)
    ensures !IsOptional(kind) ==> Requests(Exec(s, conn, dec, steps).log, kind) == Requests(s.log, kind) + Asks(steps, kind)
  {
    if steps != [] {
      var front, last := steps[..|steps| - 1], steps[|steps| - 1];
      ExecAsks(s, conn, dec, front, kind);
      PerformAsks(Exec(s, conn, dec, front), conn, dec, last, kind);
      hide Perform, IsOptional, Requests, AsksOnce;
    }
  }

  lemma PerformAsks<D>(s: State<D>, conn: Connection, dec: Decoder<D>, step: Step, kind: Kind)
    ensures Requests(Perform(s, conn, dec, step).log, kind) <= Requests(s.log, kind) + AsksOnce(step, kind)
    ensures !IsOptional(kind) ==>
      Requests(Perform(s, conn, dec, step).log, kind) == Requests(s.log, kind) + AsksOnce(step, kind)
  {
    hide Requests, EveryDeviceRefused;
    if step.Ask? {
      OneMoreEntry(s.log, Skipped(step.kind, conn.devices(s.log)), kind);
      OneMoreEntry(s.log, Sent(step.kind, conn.devices(s.log), conn.answer(s.log, step)), kind);
    }
  }

  lemma {:induction false} AsksTogether(a: seq<Step>, b: seq<Step>, kind: Kind)
    ensures Asks(a + b, kind) == Asks(a, kind) + Asks(b, kind)
  {
    if b == [] {
      assert a + b == a;
    } else {
      AsksTogether(a, b[..|b| - 1], kind);
      assert (a + b)[..|a + b| - 1] == a + b[..|b| - 1];
    }
  }

  lemma AsksOfOne(a: Step, kind: Kind)
    ensures Asks([a], kind) == AsksOnce(a, kind)
  {
    assert [a][..0] == [];
    assert Asks([], kind) == 0;
  }

  lemma AsksOfTwo(a: Step, b: Step, kind: Kind)
    ensures Asks([a, b], kind) == AsksOnce(a, kind) + AsksOnce(b, kind)
  {
    assert [a, b] == [a] + [b];
    AsksTogether([a], [b], kind);
    AsksOfOne(a, kind);
    AsksOfOne(b, kind);
  }

  lemma AsksOfFour(a: Step, b: Step, c: Step, d: Step, kind: Kind)
    ensures Asks([a, b, c, d], kind) == AsksOnce(a, kind) + AsksOnce(b, kind) + AsksOnce(c, kind) + AsksOnce(d, kind)
  {
    assert [a, b, c, d] == [a, b] + [c, d];
    AsksTogether([a, b], [c, d], kind);
    AsksOfTwo(a, b, kind);
    AsksOfTwo(c, d, kind);
  }

  lemma {:induction false} AsksOfMonths(k: Kind, n: nat, kind: Kind)
    ensures Asks(Months(k, n), kind) == if k == kind then n else 0
  {
    if n > 0 {
      AsksOfMonths(k, n - 1, kind);
      assert Months(k, n)[..n - 1] == Months(k, n - 1);
    }
  }

  /** How often a cycle with these settings asks for a kind, at most once for an optional one but the events. */
  function Due(kind: Kind, pollConsumption: bool, fetchDay: bool, daily: Option<(nat, nat)>): nat {
    match kind
    case ConsumptionEnergy => if pollConsumption then 1 else 0
    case ConsumptionPower => if pollConsumption then 1 else 0
    case DayArchive => if fetchDay then 1 else 0
    case MonthOffsetProbe => if fetchDay then 1 else 0
    case MonthArchive => if daily.Some? then daily.value.0 else 0
    case EventArchive => if daily.Some? then daily.value.1 else 0
    case _ => 1
  }

  predicate IsArchive(kind: Kind) {
    kind == DayArchive || kind == MonthArchive || kind == EventArchive || kind == MonthOffsetProbe
  }

  const FIRST_KINDS := {SoftwareVersion, TypeLabel, BatteryChargeStatus, BatteryInfo, MeteringGridMsTotW}
  const STATUS_KINDS := {DeviceStatus, InverterTemperature, GridRelayStatus, EnergyProduction, ETodayFallback}
  const SPOT_KINDS := {OperationTime, SpotDcPower, SpotDcVoltage, SpotAcPower, SpotAcVoltage, SpotAcTotalPower, SpotGridFrequency}

  lemma FirstAsks(kind: Kind)
    ensures Asks(FirstSteps(), kind) == Once(FIRST_KINDS, kind)
  {
    hide Asks;
    AsksTogether([Ask(SoftwareVersion, 0), Ask(TypeLabel, 0)],
                 [Compute(MarkBatteries), Ask(BatteryChargeStatus, 0), Ask(BatteryInfo, 0), Ask(MeteringGridMsTotW, 0)], kind);
    AsksOfTwo(Ask(SoftwareVersion, 0), Ask(TypeLabel, 0), kind);
    AsksOfFour(Compute(MarkBatteries), Ask(BatteryChargeStatus, 0), Ask(BatteryInfo, 0), Ask(MeteringGridMsTotW, 0), kind);
  }

  lemma StatusAsks(kind: Kind)
    ensures Asks(StatusSteps(), kind) == Once(STATUS_KINDS, kind)
  {
    hide Asks;
    AsksTogether([Ask(DeviceStatus, 0), Ask(InverterTemperature, 0), Ask(GridRelayStatus, 0), Ask(EnergyProduction, 0)],
                 [Ask(ETodayFallback, 0)], kind);
    AsksOfFour(Ask(DeviceStatus, 0), Ask(InverterTemperature, 0), Ask(GridRelayStatus, 0), Ask(EnergyProduction, 0), kind);
    AsksOfOne(Ask(ETodayFallback, 0), kind);
  }

  lemma LastAsks(kind: Kind)
    ensures Asks(SpotSteps(), kind) == Once(SPOT_KINDS, kind)
  {
    hide Asks;
    AsksTogether([Ask(OperationTime, 0), Ask(SpotDcPower, 0), Ask(SpotDcVoltage, 0), Ask(SpotAcPower, 0)],
                 [Ask(SpotAcVoltage, 0), Ask(SpotAcTotalPower, 0), Compute(DeriveValues), Ask(SpotGridFrequency, 0)], kind);
    AsksOfFour(Ask(OperationTime, 0), Ask(SpotDcPower, 0), Ask(SpotDcVoltage, 0), Ask(SpotAcPower, 0), kind);
    AsksOfFour(Ask(SpotAcVoltage, 0), Ask(SpotAcTotalPower, 0), Compute(DeriveValues), Ask(SpotGridFrequency, 0), kind);
  }

  function Once(kinds: set<Kind>, kind: Kind): nat { if kind in kinds then 1 else 0 }

  lemma DueOnce(kind: Kind)
    ensures Once(FIRST_KINDS, kind) + Once({ConsumptionEnergy, ConsumptionPower}, kind) + Once(STATUS_KINDS, kind)
            + Once(SPOT_KINDS, kind) == if IsArchive(kind) then 0 else 1
  {
    match kind case _ => {}
  }

  lemma ConsumptionAsks(pollConsumption: bool, kind: Kind)
    ensures Asks(if pollConsumption then [Ask(ConsumptionEnergy, 0), Ask(ConsumptionPower, 0)] else [], kind) ==
      if pollConsumption then Once({ConsumptionEnergy, ConsumptionPower}, kind) else 0
  {
    assert Asks([], kind) == 0;
    hide Asks;
    AsksOfTwo(Ask(ConsumptionEnergy, 0), Ask(ConsumptionPower, 0), kind);
  }

  lemma SpotAsks(pollConsumption: bool, kind: Kind)
    ensures Asks(QuerySequence(pollConsumption), kind) ==
      if IsArchive(kind) then 0 else Due(kind, pollConsumption, false, None)
  {
    hide Asks, FirstSteps, StatusSteps, SpotSteps, Once;
    var consumption := if pollConsumption then [Ask(ConsumptionEnergy, 0), Ask(ConsumptionPower, 0)] else [];
    FirstAsks(kind);
    ConsumptionAsks(pollConsumption, kind);
    StatusAsks(kind);
    LastAsks(kind);
    AsksTogether(FirstSteps(), consumption, kind);
    AsksTogether(FirstSteps() + consumption, StatusSteps(), kind);
    AsksTogether(FirstSteps() + consumption + StatusSteps(), SpotSteps(), kind);
    DueOnce(kind);
    ConsumptionOnce(kind);
  }

  lemma ConsumptionOnce(kind: Kind)
    ensures Once({ConsumptionEnergy, ConsumptionPower}, kind) ==
      if kind == ConsumptionEnergy || kind == ConsumptionPower then 1 else 0
  {}

  lemma DayAsks(fetchDay: bool, kind: Kind)
    ensures Asks(DaySteps(fetchDay), kind) == if fetchDay && (kind == MonthOffsetProbe || kind == DayArchive) then 1 else 0
  {
    assert Asks([], kind) == 0;
    hide Asks;
    assert [Ask(MonthOffsetProbe, 0), Compute(OffsetsProbed), Ask(DayArchive, 0)] ==
           [Ask(MonthOffsetProbe, 0), Compute(OffsetsProbed)] + [Ask(DayArchive, 0)];
    AsksTogether([Ask(MonthOffsetProbe, 0), Compute(OffsetsProbed)], [Ask(DayArchive, 0)], kind);
    AsksOfTwo(Ask(MonthOffsetProbe, 0), Compute(OffsetsProbed), kind);
    AsksOfOne(Ask(DayArchive, 0), kind);
  }

  lemma ArchiveAsks(daily: Option<(nat, nat)>, kind: Kind)
    ensures Asks(ArchiveSteps(daily), kind) ==
      if daily.None? then 0 else if kind == MonthArchive then daily.value.0 else if kind == EventArchive then daily.value.1 else 0
  {
    assert Asks([], kind) == 0;
    hide Asks, Months;
    if daily.Some? {
      var (months, events) := daily.value;
      AsksTogether(Months(MonthArchive, months), [Compute(ClearEvents)], kind);
      AsksTogether(Months(MonthArchive, months) + [Compute(ClearEvents)], Months(EventArchive, events), kind);
      AsksOfMonths(MonthArchive, months, kind);
      AsksOfMonths(EventArchive, events, kind);
      AsksOfOne(Compute(ClearEvents), kind);
    }
  }

  lemma ScriptAsks(pollConsumption: bool, fetchDay: bool, daily: Option<(nat, nat)>, kind: Kind)
    ensures Asks(CycleSteps(pollConsumption, fetchDay, daily), kind) == Due(kind, pollConsumption, fetchDay, daily)
  {
    hide Asks, QuerySequence, DaySteps, ArchiveSteps;
    AsksTogether(QuerySequence(pollConsumption), DaySteps(fetchDay), kind);
    AsksTogether(QuerySequence(pollConsumption) + DaySteps(fetchDay), ArchiveSteps(daily), kind);
    SpotAsks(pollConsumption, kind);
    DayAsks(fetchDay, kind);
    ArchiveAsks(daily, kind);
  }

  /**
   What the service's cycle asks for, as its log records it: every query that is due exactly as often as the settings
   say, an optional one at most so often, and nothing at all when the session does not begin or the login fails.
   */
  lemma CycleAsksForWhatIsDue<D>(s: State<D>, conn: Connection, dec: Decoder<D>, pollConsumption: bool, fetchDay: bool,
      daily: Option<(nat, nat)>, kind: Kind)
    ensures var begun := Begin(s, conn);
      var asked := Requests(Cycle(s, conn, dec, CycleSteps(pollConsumption, fetchDay, daily)).log, kind) - Requests(s.log, kind);
      var due := Due(kind, pollConsumption, fetchDay, daily);
      && (!conn.begin(s.log) || !conn.login(Prepare(begun, conn, dec).log) ==> asked == 0)
      && (conn.begin(s.log) && conn.login(Prepare(begun, conn, dec).log) ==> asked <= due && (!IsOptional(kind) ==> asked == due))
  {
    hide Requests, CycleSteps, Due, IsOptional, Load, Exec;
    var steps := CycleSteps(pollConsumption, fetchDay, daily);
    OneMoreEntry(s.log, Began(conn.begin(s.log)), kind);
    var begun := Begin(s, conn);
    if conn.begin(s.log) {
      var ready := Prepare(begun, conn, dec);
      OneMoreEntry(begun.log, ready.log[|begun.log|], kind);
      OneMoreEntry(ready.log, LoggedIn(conn.login(ready.log)), kind);
      var login := Login(ready, conn);
      if conn.login(ready.log) {
        OneMoreEntry(login.log, ClockSet(conn.sync(login.log)), kind);
        ExecAsks(SyncClock(login, conn), conn, dec, steps, kind);
        ScriptAsks(pollConsumption, fetchDay, daily, kind);
        OneMoreEntry(Exec(SyncClock(login, conn), conn, dec, steps).log, Ended, kind);
      } else {
        OneMoreEntry(login.log, Ended, kind);
      }
    }
  }

  // ---------------------------------------------------------------- the collector

  datatype Outcome = Completed | Empty | Unsupported | Failed

  datatype Topic = SessionBegin | SessionLogin | ClockSync | SessionEnd | Query(kind: Kind)

  datatype Transmission = Transmission(topic: Topic, outcome: Outcome, addressed: seq<int>)

  predicate Silent(r: Reply) { forall s | s in r.frames :: r.frames[s] == [] }

  /** How an exchange is reported: refusal by every device is an answer, anything else without frames is silence. */
  function OutcomeOf(reply: Option<Reply>, addressed: seq<int>): Outcome {
    if reply.None? then Failed
    else if !Silent(reply.value) then Completed
    else if addressed != [] && forall s | s in addressed :: s in reply.value.unsupported then Unsupported
    else Empty
  }

  function StepOutcome(ok: bool): Outcome { if ok then Completed else Failed }

  /** The transmissions that the entries of a log stand for. */
  function Reports(log: Log): seq<Transmission> {
    if log == [] then []
    else Reports(log[..|log| - 1]) + ReportOf(log[|log| - 1])
  }

  function ReportOf(e: Entry): seq<Transmission> {
    match e
    case Began(ok) => [Transmission(SessionBegin, StepOutcome(ok), [])]
    case Loaded(_, _) => []
    case LoggedIn(ok) => [Transmission(SessionLogin, StepOutcome(ok), [])]
    case ClockSet(ok) => [Transmission(ClockSync, StepOutcome(ok), [])]
    case Sent(kind, addressed, reply) => [Transmission(Query(kind), OutcomeOf(reply, addressed), addressed)]
    case Skipped(kind, addressed) => [Transmission(Query(kind), Unsupported, addressed)]
    case Ended => [Transmission(SessionEnd, Completed, [])]
  }

  /** How often a query of a kind is reported. */
  function Reported(ts: seq<Transmission>, kind: Kind): nat {
    if ts == [] then 0
    else Reported(ts[..|ts| - 1], kind) + if ts[|ts| - 1].topic == Query(kind) then 1 else 0
  }

  lemma ReportedStep(ts: seq<Transmission>, e: Entry, kind: Kind)
    ensures Reported(ts + ReportOf(e), kind) == Reported(ts, kind) + if IsRequest(e, kind) then 1 else 0
  {
    if ReportOf(e) == [] {
      assert ts + ReportOf(e) == ts;
    } else {
      assert (ts + ReportOf(e))[..|ts|] == ts;
    }
  }

  /** Every request is reported once, whether it was sent or skipped. */
  lemma {:induction false} EveryRequestIsReported(log: Log, kind: Kind)
    ensures Reported(Reports(log), kind) == Requests(log, kind)
  {
    if log != [] {
      var front := log[..|log| - 1];
      EveryRequestIsReported(front, kind);
      ReportedStep(Reports(front), log[|log| - 1], kind);
      hide ReportOf, Reported, IsRequest;
    }
  }

  /**
   What a report's outcome tells of the reply: whether there was one, whether any device sent a frame,
   and if none did whether every device addressed refused the query.
   */
  lemma OutcomeTells(reply: Option<Reply>, addressed: seq<int>)
    ensures var o := OutcomeOf(reply, addressed);
            && (o.Failed? <==> reply.None?)
            && (o.Completed? <==> reply.Some? && exists s :: s in reply.value.frames && reply.value.frames[s] != [])
            && (o.Unsupported? ==> addressed != [] && forall i | 0 <= i < |addressed| :: addressed[i] in reply.value.unsupported)
            && (o.Empty? ==> addressed == [] || exists i :: 0 <= i < |addressed| && addressed[i] !in reply.value.unsupported)
  {
    if reply.Some? {
      var unsupported := reply.value.unsupported;
      if addressed != [] && !(forall s | s in addressed :: s in unsupported) {
        var s :| s in addressed && s !in unsupported;
        var i :| 0 <= i < |addressed| && addressed[i] == s;
        assert addressed[i] !in unsupported;
      }
    }
  }

  lemma ReportStep(log: Log, e: Entry)
    ensures Reports(log + [e]) == Reports(log) + ReportOf(e)
  {
    Extend(log, e);
    hide ReportOf;
  }

  class Poller<!D(!new)> {
    var log: Log
    var refused: Refusals
    var store: Option<Refusals>
    var decoded: D
    /** What was recorded; nothing when no sink is configured. */
    var sink: Option<seq<Transmission>>
    const conn: Connection
    const dec: Decoder<D>

    function Now(): State<D>
      reads this
    {
      State(log, refused, store, decoded)
    }

    /** The sink, if any, reports exactly what the log holds. */
    ghost predicate Recorded()
      reads this
    {
      sink.Some? ==> sink.value == Reports(log)
    }

    constructor (conn: Connection, dec: Decoder<D>, decoded: D, store: Option<Refusals>, recording: bool)
      ensures Now() == Start(store, decoded) && Recorded() && sink.Some? == recording
      ensures this.conn == conn && this.dec == dec
    {
      log, refused, this.store, this.decoded := [], map[], store, decoded;
      sink := if recording then Some([]) else None;
      this.conn, this.dec := conn, dec;
    }

    method RecordStep(topic: Topic, outcome: Outcome)
      modifies this`sink
      ensures sink == if old(sink).Some? then Some(old(sink).value + [Transmission(topic, outcome, [])]) else None
    {
      if sink.Some? { sink := Some(sink.value + [Transmission(topic, outcome, [])]); }
    }

    method RememberRefusals(kind: Kind, reply: Option<Reply>)
      modifies this`refused, this`store
      ensures Now() == Remember(old(Now()), kind, reply)
    {
      hide AddRefusal;
      if store.None? || reply.None? { return; }
      var serials := reply.value.unsupported;
      var i := 0;
      while i < |serials|
        invariant 0 <= i <= |serials| && store.Some? && log == old(log) && decoded == old(decoded)
        invariant refused == AddRefusals(old(refused), serials[..i], kind)
        invariant store.value == AddRefusals(old(store).value, serials[..i], kind)
      {
        AddRefusalsStep(old(refused), serials, i, kind);
        AddRefusalsStep(old(store).value, serials, i, kind);
        store := Some(AddRefusal(store.value, serials[i], kind));
        refused := AddRefusal(refused, serials[i], kind);
        i := i + 1;
      }
      assert serials[..i] == serials;
    }

    /** Sends one query, unless every addressed device refused it, and reports it to the sink if there is one. */
    method RequestRecorded(step: Step) returns (reply: Option<Reply>)
      requires step.Ask? && Recorded()
      modifies this`log, this`refused, this`store, this`sink
      ensures (Now(), reply) == Request(old(Now()), conn, step)
      ensures Recorded() && sink.Some? == old(sink).Some?
    {
      hide Refuses, AddRefusals, Reports;
      var addressed := conn.devices(log);
      if store.Some? && addressed != [] && AllRefuse(refused, addressed, step.kind) {
        ReportStep(log, Skipped(step.kind, addressed));
        if sink.Some? { sink := Some(sink.value + [Transmission(Query(step.kind), Unsupported, addressed)]); }
        log := log + [Skipped(step.kind, addressed)];
        return Some(NO_REPLY);
      }
      reply := conn.answer(log, step);
      ReportStep(log, Sent(step.kind, addressed, reply));
      if sink.None? {
        RememberRefusals(step.kind, reply);
      } else {
        var outcome := OutcomeOf(reply, addressed);
        RememberRefusals(step.kind, reply);
        sink := Some(sink.value + [Transmission(Query(step.kind), outcome, addressed)]);
      }
      log := log + [Sent(step.kind, addressed, reply)];
    }

    method RunScript(steps: seq<Step>)
      requires Recorded()
      modifies this`log, this`refused, this`store, this`sink, this`decoded
      ensures Now() == Exec(old(Now()), conn, dec, steps)
      ensures Recorded() && sink.Some? == old(sink).Some?
    {
      hide Request, Reports;
      var i := 0;
      while i < |steps|
        invariant 0 <= i <= |steps| && Now() == Exec(old(Now()), conn, dec, steps[..i])
        invariant Recorded() && sink.Some? == old(sink).Some?
      {
        assert steps[..i + 1][..i] == steps[..i];
        var step := steps[i];
        if step.Compute? {
          decoded := dec.absorb(decoded, step, None);
        } else if !IsOptional(step.kind) || dec.wants(decoded, step) {
          var reply := RequestRecorded(step);
          decoded := dec.absorb(decoded, step, reply);
        }
        i := i + 1;
      }
      assert steps[..i] == steps;
    }

    /** Adds one session entry to the log and reports it to the sink if there is one. */
    method LogStep(e: Entry, topic: Topic, outcome: Outcome)
      requires Recorded() && ReportOf(e) == [Transmission(topic, outcome, [])]
      modifies this`log, this`sink
      ensures log == old(log) + [e] && Recorded() && sink.Some? == old(sink).Some?
    {
      hide Reports, ReportOf;
      ReportStep(log, e);
      RecordStep(topic, outcome);
      log := log + [e];
    }

    method BeginRecorded() returns (ok: bool)
      requires Recorded()
      modifies this`log, this`sink
      ensures Now() == Begin(old(Now()), conn) && ok == conn.begin(old(log))
      ensures Recorded() && sink.Some? == old(sink).Some?
    {
      ok := conn.begin(log);
      LogStep(Began(ok), SessionBegin, StepOutcome(ok));
    }

    /** Rebuilds the inverters and loads the refusals of this session's devices. */
    method PrepareSession()
      requires Recorded()
      modifies this`log, this`refused, this`decoded
      ensures Now() == Prepare(old(Now()), conn, dec) && Recorded()
    {
      hide Reports;
      var devices := conn.devices(log);
      decoded := dec.rebuild(decoded, devices);
      refused := if store.Some? then Load(store.value, devices) else map[];
      ReportStep(log, Loaded(devices, refused));
      log := log + [Loaded(devices, refused)];
    }

    method LoginRecorded() returns (ok: bool)
      requires Recorded()
      modifies this`log, this`sink
      ensures Now() == Login(old(Now()), conn) && ok == conn.login(old(log))
      ensures Recorded() && sink.Some? == old(sink).Some?
    {
      ok := conn.login(log);
      LogStep(LoggedIn(ok), SessionLogin, StepOutcome(ok));
    }

    method SyncClockRecorded()
      requires Recorded()
      modifies this`log, this`sink
      ensures Now() == SyncClock(old(Now()), conn)
      ensures Recorded() && sink.Some? == old(sink).Some?
    {
      var synced := conn.sync(log);
      LogStep(ClockSet(synced), ClockSync, StepOutcome(synced));
    }

    method EndRecorded()
      requires Recorded()
      modifies this`log, this`sink
      ensures Now() == End(old(Now()))
      ensures Recorded() && sink.Some? == old(sink).Some?
    {
      LogStep(Ended, SessionEnd, Completed);
    }

    /** One full cycle; the session is torn down whenever it began. */
    method PollScript(steps: seq<Step>) returns (ok: bool)
      requires Recorded()
      modifies this
      ensures Now() == Cycle(old(Now()), conn, dec, steps)
      ensures Recorded() && sink.Some? == old(sink).Some?
    {
      hide Exec, Reports, Begin, Prepare, Login, SyncClock, End;
      ok := BeginRecorded();
      if !ok { return; }
      PrepareSession();
      ok := LoginRecorded();
      if ok {
        SyncClockRecorded();
        RunScript(steps);
      }
      EndRecorded();
    }

    /** The cycle of the service: all spot queries, then the archives that are due. */
    method PollCycle(pollConsumption: bool, fetchDay: bool, daily: Option<(nat, nat)>) returns (ok: bool)
      requires Recorded()
      modifies this
      ensures Now() == Cycle(old(Now()), conn, dec, CycleSteps(pollConsumption, fetchDay, daily))
      ensures Recorded() && sink.Some? == old(sink).Some?
    {
      hide Cycle, CycleSteps;
      ok := PollScript(CycleSteps(pollConsumption, fetchDay, daily));
    }
  }

  /** A recording and a silent collector, started alike, end alike: recording only adds the reports. */
  method PollTwice<D(!new)>(conn: Connection, dec: Decoder<D>, decoded: D, store: Option<Refusals>, scripts: seq<seq<Step>>)
    returns (silent: State<D>, recording: State<D>, reports: seq<Transmission>)
    ensures silent == recording && reports == Reports(recording.log)
    ensures silent == Run(Start(store, decoded), conn, dec, seq(|scripts|, i requires 0 <= i < |scripts| => Poll(scripts[i])))
  {
    hide Cycle, Reports;
    var a := new Poller(conn, dec, decoded, store, false);
    var b := new Poller(conn, dec, decoded, store, true);
    ghost var hs := seq(|scripts|, i requires 0 <= i < |scripts| => Poll(scripts[i]));
    var i := 0;
    while i < |scripts|
      invariant 0 <= i <= |scripts| && a.conn == b.conn == conn && a.dec == b.dec == dec
      invariant a.Now() == b.Now() == Run(Start(store, decoded), conn, dec, hs[..i])
      invariant a.Recorded() && b.Recorded() && a.sink.None? && b.sink.Some?
      modifies a, b
    {
      assert hs[..i + 1][..i] == hs[..i];
      var okA := a.PollScript(scripts[i]);
      var okB := b.PollScript(scripts[i]);
      i := i + 1;
    }
    assert hs[..i] == hs;
    silent, recording, reports := a.Now(), b.Now(), b.sink.value;
  }
}
