/** The registry of connections: which session of a station is the current one.

    The state every locked section of the engine works on is given twice. `State` is the
    specification: one step per locked section, nothing bounded. `Engine` is the program's own
    form: a map of records updated in place, with its bounded history and counters, and every
    method is proved to take the step of the same name. What holds in every run, with any number
    of connections and stale sessions interleaved, is proved about `Run`. */
module Registry {
  import opened Options
  import opened StationRecords

  /** A station's id, as decoded from the URL path. */
  datatype StationId = StationId(name: string)

  datatype DisconnectReason = Closed | Replaced | Shutdown | Injected | Forgotten | PingTimeout

  /** Why a session ends by itself; the other two reasons are given by the registry. */
  type EndReason = r: DisconnectReason | r != Replaced && r != Forgotten witness Closed

  /** What subscribers are told. The session ids are annotations: the real events name only the
      station, the annotation says which session the event is about. */
  datatype Event =
    | Connected(station: StationId, session: nat)
    | Disconnected(station: StationId, session: nat, reason: DisconnectReason)
    | FrameSeen(station: StationId, direction: Direction)
    | StateChanged(station: StationId)
    | StationForgotten(station: StationId)

  /** A CALL answered with a result, as folded into a station's protocol state. */
  datatype TrackedCall = TrackedCall(action: string, request: nat, response: nat)

  /** The answer of a call the engine made, with the session the call was sent through. */
  datatype LateResult = LateResult(session: nat, call: TrackedCall)

  datatype Config = Config(maxStations: nat, historyCap: nat, historyBytesCap: nat)

  datatype RegisterResult = Registered(session: nat) | RefusedShutdown | RefusedTooManyStations

  /** Where a call goes: nowhere, with a reason, or through the linked session. */
  datatype CallTarget = UnknownStation | NotConnected | Through(session: nat)

  // ---- specification ----------------------------------------------------------------

  /** Everything that ever happened to one registered station, unbounded. `failures` are the sessions
      that the failed calls were sent through, and `born` is the session that created the record;
      the program keeps neither, it counts the failures and forgets whose they were. */
  datatype Station = Station(
    link: Option<nat>, past: Past, tracked: seq<TrackedCall>,
    failures: seq<nat>, results: seq<LateResult>, born: nat)

  function NewStation(session: nat): Station { Station(None, NoPast, [], [], [], session) }

  datatype State = State(
    stations: map<StationId, Station>, nextSession: nat, stopping: bool, events: seq<Event>, closes: seq<nat>)

  datatype Op =
    | Register(id: StationId)
    | EndSession(id: StationId, session: nat, reason: EndReason)
    | Forget(id: StationId)
    | BeginShutdown
    | SweepStation(id: StationId)
    | RecordFrame(id: StationId, session: nat, direction: Direction, frame: Frame, subscribed: bool)
    | Track(id: StationId, session: nat, call: TrackedCall, changes: bool)
    | NoteFailedCall(id: StationId, session: nat)
    | TrackResult(id: StationId, session: nat, call: TrackedCall, changes: bool)

  const Initial := State(map[], 0, false, [], [])

  predicate Current(s: State, id: StationId, session: nat) {
    id in s.stations && s.stations[id].link == Some(session)
  }

  function Outcome(s: State, id: StationId, config: Config): RegisterResult {
    if s.stopping then RefusedShutdown
    else if |s.stations| >= config.maxStations && id !in s.stations then RefusedTooManyStations
    else Registered(s.nextSession + 1)
  }

  function Target(s: State, id: StationId): CallTarget {
    if id !in s.stations then UnknownStation
    else if s.stations[id].link.None? then NotConnected
    else Through(s.stations[id].link.value)
  }

  /** The registry took the session away, so it is also told to close its socket. */
  predicate Displaces(reason: DisconnectReason) {
    reason.Replaced? || reason.Forgotten?
  }

  /** The station loses its session, if it has one. */
  function Unlink(s: State, id: StationId, reason: DisconnectReason): State
    requires id in s.stations
  {
    var station := s.stations[id];
    match station.link
    case None => s
    case Some(session) =>
      s.(stations := s.stations[id := station.(link := None)],
         events := s.events + [Disconnected(id, session, reason)],
         closes := if Displaces(reason) then s.closes + [session] else s.closes)
  }

  function Link(s: State, id: StationId, session: nat): State {
    var known := if id in s.stations then s.stations[id] else NewStation(session);
    s.(stations := s.stations[id := known.(link := Some(session))],
       nextSession := session,
       events := s.events + [Connected(id, session)])
  }

  function Step(s: State, op: Op, config: Config): State {
    match op
    case Register(id) =>
      (match Outcome(s, id, config)
       case Registered(session) => Link(if id in s.stations then Unlink(s, id, Replaced) else s, id, session)
       case _ => s)
    case EndSession(id, session, reason) =>
      if Current(s, id, session) then Unlink(s, id, reason) else s
    case Forget(id) =>
      if id !in s.stations then s else
        var u := Unlink(s, id, Forgotten);
        u.(stations := u.stations - {id}, events := u.events + [StationForgotten(id)])
    case BeginShutdown => s.(stopping := true)
    case SweepStation(id) => if id in s.stations then Unlink(s, id, Shutdown) else s
    case RecordFrame(id, session, direction, frame, subscribed) =>
      if !Current(s, id, session) then s else
        s.(stations := s.stations[id := s.stations[id].(
             past := AfterFrame(s.stations[id].past, direction, frame, config.historyBytesCap))],
           events := if subscribed then s.events + [FrameSeen(id, direction)] else s.events)
    case Track(id, session, call, changes) =>
      if !Current(s, id, session) then s else
        s.(stations := s.stations[id := s.stations[id].(tracked := s.stations[id].tracked + [call])],
           events := if changes then s.events + [StateChanged(id)] else s.events)
    case NoteFailedCall(id, session) =>
      if id !in s.stations then s else
        s.(stations := s.stations[id := s.stations[id].(failures := s.stations[id].failures + [session])],
           events := s.events + [StateChanged(id)])
    case TrackResult(id, session, call, changes) =>
      if id !in s.stations || !changes then s else
        s.(stations := s.stations[id := s.stations[id].(
             results := s.stations[id].results + [LateResult(session, call)])],
           events := s.events + [StateChanged(id)])
  }

  function Run(s: State, ops: seq<Op>, config: Config): State
    decreases |ops|
  {
    if ops == [] then s else Run(Step(s, ops[0], config), ops[1..], config)
  }

  // ---- reference: what the events alone say ---------------------------------------------

  /** A station's connection as an observer of the events reconstructs it. `Broken` is the
      verdict on events that do not alternate, or that end a session which did not begin. */
  datatype Phase = Idle | Linked(session: nat) | Broken

  function Observe(phase: Phase, event: Event, id: StationId): Phase {
    match event
    case Connected(station, session) =>
      if station != id then phase else if phase == Idle then Linked(session) else Broken
    case Disconnected(station, session, _) =>
      if station != id then phase else if phase == Linked(session) then Idle else Broken
    case StationForgotten(station) =>
      if station != id then phase else if phase == Idle then Idle else Broken
    case _ => phase
  }

  function PhaseOf(events: seq<Event>, id: StationId): Phase {
    if events == [] then Idle else Observe(PhaseOf(events[..|events| - 1], id), events[|events| - 1], id)
  }

  function LinkPhase(s: State, id: StationId): Phase {
    if id in s.stations && s.stations[id].link.Some? then Linked(s.stations[id].link.value) else Idle
  }

  /** The sessions an observer expects to be told to close: those replaced or forgotten. */
  function Displaced(events: seq<Event>): seq<nat> {
    if events == [] then [] else
      var e := events[|events| - 1];
      Displaced(events[..|events| - 1]) +
      if e.Disconnected? && Displaces(e.reason) then [e.session] else []
  }

  /** The invariant of every run. */
  ghost predicate Inv(s: State, config: Config) {
    && |s.stations| <= config.maxStations
    && Linkage(s)
  }

  /** The events, the links and the sent Close commands tell the same story. */
  ghost predicate Linkage(s: State) {
    && PhasesAgree(s)
    && s.closes == Displaced(s.events)
    && Sessions(s)
  }

  ghost predicate PhasesAgree(s: State) {
    forall id :: PhaseOf(s.events, id) == LinkPhase(s, id)
  }

  /** The sessions that were announced, in order. */
  function ConnectedIds(events: seq<Event>): seq<nat> {
    if events == [] then [] else
      var e := events[|events| - 1];
      ConnectedIds(events[..|events| - 1]) + if e.Connected? then [e.session] else []
  }

  /** The sessions whose end was announced, in order. */
  function EndedIds(events: seq<Event>): seq<nat> {
    if events == [] then [] else
      var e := events[|events| - 1];
      EndedIds(events[..|events| - 1]) + if e.Disconnected? then [e.session] else []
  }

  function OneTo(n: nat): seq<nat> {
    if n == 0 then [] else OneTo(n - 1) + [n]
  }

  /** Session ids are given out as 1, 2, 3, ...; each is ended at most once, and a session is
      linked to at most one station, and only until it is ended. */
  ghost predicate Sessions(s: State) {
    && ConnectedIds(s.events) == OneTo(s.nextSession)
    && NoDuplicates(EndedIds(s.events))
    && (forall x | x in EndedIds(s.events) :: x <= s.nextSession)
    && LinksOpen(s)
  }

  ghost predicate NoDuplicates(ids: seq<nat>) {
    forall i, j | 0 <= i < j < |ids| :: ids[i] != ids[j]
  }

  /** The station a session was announced for. */
  function Owner(events: seq<Event>, session: nat): Option<StationId> {
    if events == [] then None else
      var e := events[|events| - 1];
      if e.Connected? && e.session == session then Some(e.station)
      else Owner(events[..|events| - 1], session)
  }

  ghost predicate LinksOpen(s: State) {
    forall id :: var phase := LinkPhase(s, id);
      phase.Linked? ==>
        && phase.session <= s.nextSession
        && phase.session !in EndedIds(s.events)
        && Owner(s.events, phase.session) == Some(id)
  }

  // ---- every run ----------------------------------------------------------------------

  lemma PhaseAppend(events: seq<Event>, e: Event, id: StationId)
    ensures PhaseOf(events + [e], id) == Observe(PhaseOf(events, id), e, id)
  {
    assert (events + [e])[..|events|] == events;
  }

  lemma IdsAppend(events: seq<Event>, e: Event)
    ensures Displaced(events + [e]) ==
            Displaced(events) + if e.Disconnected? && Displaces(e.reason) then [e.session] else []
    ensures ConnectedIds(events + [e]) == ConnectedIds(events) + if e.Connected? then [e.session] else []
    ensures EndedIds(events + [e]) == EndedIds(events) + if e.Disconnected? then [e.session] else []
    ensures forall x ::
              Owner(events + [e], x) == if e == Connected(e.station, x) then Some(e.station) else Owner(events, x)
  {
    assert (events + [e])[..|events|] == events;
  }

  lemma PhasesAfter(s: State, s': State, e: Event)
    requires PhasesAgree(s) && s'.events == s.events + [e]
    requires forall id :: LinkPhase(s', id) == Observe(LinkPhase(s, id), e, id)
    ensures PhasesAgree(s')
  {
    forall id ensures PhaseOf(s'.events, id) == LinkPhase(s', id) {
      PhaseAppend(s.events, e, id);
    }
  }

  lemma UnlinkKeepsLinkage(s: State, id: StationId, reason: DisconnectReason)
    requires id in s.stations && Linkage(s)
    ensures Linkage(Unlink(s, id, reason))
    ensures LinkPhase(Unlink(s, id, reason), id) == Idle
  {
    hide PhaseOf, Displaced, ConnectedIds, EndedIds, Owner;
    if s.stations[id].link.Some? {
      var e := Disconnected(id, s.stations[id].link.value, reason);
      assert LinkPhase(s, id) == Linked(e.session);
      IdsAppend(s.events, e);
      PhasesAfter(s, Unlink(s, id, reason), e);
    }
  }

  lemma LinkKeepsLinkage(s: State, id: StationId)
    requires Linkage(s) && LinkPhase(s, id) == Idle
    ensures Linkage(Link(s, id, s.nextSession + 1))
  {
    hide PhaseOf, Displaced, ConnectedIds, EndedIds, Owner;
    var e := Connected(id, s.nextSession + 1);
    IdsAppend(s.events, e);
    PhasesAfter(s, Link(s, id, s.nextSession + 1), e);
  }

  /** Steps that neither link nor unlink: the links stay and the event is about neither. */
  lemma QuietKeepsLinkage(s: State, s': State)
    requires Linkage(s)
    requires s'.nextSession == s.nextSession && s'.closes == s.closes
    requires forall id :: LinkPhase(s', id) == LinkPhase(s, id)
    requires s'.events == s.events ||
             (s'.events != [] && s.events == s'.events[..|s'.events| - 1] && Quiet(s, s'.events[|s'.events| - 1]))
    ensures Linkage(s')
  {
    hide PhaseOf, Displaced, ConnectedIds, EndedIds, Owner;
    if s'.events != s.events {
      var e := s'.events[|s'.events| - 1];
      assert s'.events == s.events + [e];
      IdsAppend(s.events, e);
      PhasesAfter(s, s', e);
    }
  }

  predicate Quiet(s: State, e: Event) {
    match e
    case Connected(_, _) => false
    case Disconnected(_, _, _) => false
    case StationForgotten(id) => LinkPhase(s, id) == Idle
    case _ => true
  }

  lemma StepKeepsBound(s: State, op: Op, config: Config)
    requires |s.stations| <= config.maxStations
    ensures |Step(s, op, config).stations| <= config.maxStations
  {
    var s' := Step(s, op, config);
    if op.Register? {
      assert s'.stations == s.stations || s'.stations.Keys == s.stations.Keys + {op.id};
    } else if op.Forget? {
      assert s'.stations == s.stations || s'.stations.Keys == s.stations.Keys - {op.id};
    } else {
      assert s'.stations.Keys == s.stations.Keys;
    }
  }

  /** Registering: the old session, if any, is displaced before the new one is announced. */
  lemma RegisterKeepsLinkage(s: State, id: StationId, config: Config)
    requires Linkage(s)
    ensures Linkage(Step(s, Register(id), config))
  {
    hide Linkage;
    if Outcome(s, id, config).Registered? {
      var freed := if id in s.stations then Unlink(s, id, Replaced) else s;
      if id in s.stations {
        UnlinkKeepsLinkage(s, id, Replaced);
      }
      assert freed.nextSession == s.nextSession;
      LinkKeepsLinkage(freed, id);
    }
  }

  lemma ForgetKeepsLinkage(s: State, id: StationId, config: Config)
    requires Linkage(s)
    ensures Linkage(Step(s, Forget(id), config))
  {
    hide Linkage;
    if id in s.stations {
      UnlinkKeepsLinkage(s, id, Forgotten);
      QuietKeepsLinkage(Unlink(s, id, Forgotten), Step(s, Forget(id), config));
    }
  }

  /** A change to one station that leaves its link alone. */
  lemma UpdateKeepsLinkage(s: State, id: StationId, station: Station, s': State)
    requires Linkage(s) && id in s.stations && station.link == s.stations[id].link
    requires s'.stations == s.stations[id := station]
    requires s'.nextSession == s.nextSession && s'.closes == s.closes
    requires s'.events == s.events || exists e :: s'.events == s.events + [e] && Quiet(s, e)
    ensures Linkage(s')
  {
    assert forall x :: LinkPhase(s', x) == LinkPhase(s, x);
    QuietKeepsLinkage(s, s');
  }

  /** The steps that leave every link alone. */
  lemma QuietStepKeepsLinkage(s: State, op: Op, config: Config)
    requires Linkage(s)
    requires op.BeginShutdown? || op.RecordFrame? || op.Track? || op.NoteFailedCall? || op.TrackResult?
    ensures Linkage(Step(s, op, config))
  {
    hide Linkage;
    var s' := Step(s, op, config);
    if op.BeginShutdown? {
      QuietKeepsLinkage(s, s');
    } else if s' != s {
      UpdateKeepsLinkage(s, op.id, s'.stations[op.id], s');
    }
  }

  lemma {:induction false} RunKeepsInv(s: State, ops: seq<Op>, config: Config)
    requires Inv(s, config)
    ensures Inv(Run(s, ops, config), config)
    decreases |ops|
  {
    if ops != [] {
      var op := ops[0];
      StepKeepsBound(s, op, config);
      match op {
        case Register(id) => RegisterKeepsLinkage(s, id, config);
        case Forget(id) => ForgetKeepsLinkage(s, id, config);
        case EndSession(id, _, reason) => if id in s.stations { UnlinkKeepsLinkage(s, id, reason); }
        case SweepStation(id) => if id in s.stations { UnlinkKeepsLinkage(s, id, Shutdown); }
        case _ => QuietStepKeepsLinkage(s, op, config);
      }
      RunKeepsInv(Step(s, ops[0], config), ops[1..], config);
    }
  }

  /** The sessions of a station as its events tell them, in order. */
  function ConnectionEvents(events: seq<Event>, id: StationId): seq<Event> {
    if events == [] then [] else
      var e := events[|events| - 1];
      ConnectionEvents(events[..|events| - 1], id) +
      if (e.Connected? || e.Disconnected?) && e.station == id then [e] else []
  }

  /** Connected, Disconnected, Connected, ...: each end is of the session that began last. */
  ghost predicate Alternates(events: seq<Event>) {
    forall i | 0 <= i < |events| :: InTurn(events, i)
  }

  predicate InTurn(events: seq<Event>, i: nat)
    requires i < |events|
  {
    if i % 2 == 0 then events[i].Connected?
    else events[i].Disconnected? && events[i - 1].Connected? && events[i].session == events[i - 1].session
  }

  lemma AlternatesAppend(c: seq<Event>, e: Event)
    requires Alternates(c) && InTurn(c + [e], |c|)
    ensures Alternates(c + [e])
  {
    forall i | 0 <= i < |c + [e]| ensures InTurn(c + [e], i) {
      if i < |c| {
        assert InTurn(c, i);
      }
    }
  }

  lemma {:induction false} UnbrokenAlternates(events: seq<Event>, id: StationId)
    requires PhaseOf(events, id) != Broken
    ensures var c := ConnectionEvents(events, id);
            && Alternates(c)
            && (PhaseOf(events, id) == Idle <==> |c| % 2 == 0)
            && (PhaseOf(events, id).Linked? ==> c != [] && c[|c| - 1] == Connected(id, PhaseOf(events, id).session))
  {
    if events != [] {
      var before, e := events[..|events| - 1], events[|events| - 1];
      UnbrokenAlternates(before, id);
      var c := ConnectionEvents(before, id);
      var c' := ConnectionEvents(events, id);
      if (e.Connected? || e.Disconnected?) && e.station == id {
        assert c' == c + [e];
        AlternatesAppend(c, e);
      } else {
        assert c' == c;
      }
    }
  }

  /** Over every interleaving of any number of connections: the registry stays within its bound;
      each station's events alternate and end with Connected exactly while a session is linked;
      sessions are numbered without gaps and each is ended at most once; and exactly the
      replaced and forgotten sessions were told to close, in that order. */
  lemma EveryRunIsConsistent(ops: seq<Op>, config: Config)
    ensures var s := Run(Initial, ops, config);
            && |s.stations| <= config.maxStations
            && (forall id :: Alternates(ConnectionEvents(s.events, id)))
            && (forall id :: |ConnectionEvents(s.events, id)| % 2 == 1 <==>
                  id in s.stations && s.stations[id].link.Some?)
            && ConnectedIds(s.events) == OneTo(s.nextSession)
            && NoDuplicates(EndedIds(s.events))
            && s.closes == Displaced(s.events)
  {
    RunKeepsInv(Initial, ops, config);
    var s := Run(Initial, ops, config);
    forall id
      ensures Alternates(ConnectionEvents(s.events, id))
      ensures |ConnectionEvents(s.events, id)| % 2 == 1 <==> id in s.stations && s.stations[id].link.Some?
    {
      UnbrokenAlternates(s.events, id);
    }
  }

  /** A session that is not the current one of its station changes nothing, whatever it does. */
  lemma StaleSessionsChangeNothing(s: State, op: Op, config: Config)
    requires op.EndSession? || op.RecordFrame? || op.Track?
    ensures Current(s, op.id, op.session) || Step(s, op, config) == s
    ensures Current(s, op.id, op.session) ==> Step(s, op, config) != s
  {
    if Current(s, op.id, op.session) {
      var before, after := s.stations[op.id], Step(s, op, config).stations[op.id];
      if op.EndSession? {
        assert after.link != before.link;
      } else if op.Track? {
        assert |after.tracked| == |before.tracked| + 1;
      } else {
        assert |after.past.recorded| == |before.past.recorded| + 1;
      }
    }
  }

  /** The shutdown sweep visits every registered station. */
  function SweepOps(ids: seq<StationId>): seq<Op> {
    if ids == [] then [] else [SweepStation(ids[0])] + SweepOps(ids[1..])
  }

  ghost predicate AllIdle(s: State) {
    forall id | id in s.stations :: s.stations[id].link == None
  }

  lemma {:induction false} SweepUnlinks(s: State, ids: seq<StationId>, config: Config)
    ensures var s' := Run(s, SweepOps(ids), config);
            && s'.stations.Keys == s.stations.Keys
            && s'.stopping == s.stopping
            && forall id | id in s'.stations ::
                 s'.stations[id] == if id in ids then s.stations[id].(link := None) else s.stations[id]
    decreases |ids|
  {
    if ids != [] {
      var s1 := Step(s, SweepStation(ids[0]), config);
      assert SweepOps(ids)[1..] == SweepOps(ids[1..]);
      SweepUnlinks(s1, ids[1..], config);
      assert s1.stations.Keys == s.stations.Keys;
    }
  }

  /** The stop flag alone refuses every registration: no session is announced and none is linked
      anew, whatever happens to those that are still linked. */
  lemma {:induction false} StoppingConnectsNobody(s: State, ops: seq<Op>, config: Config)
    requires s.stopping
    ensures var s' := Run(s, ops, config);
            && s'.stopping && s'.nextSession == s.nextSession
            && ConnectedIds(s'.events) == ConnectedIds(s.events)
            && s'.stations.Keys <= s.stations.Keys
            && forall id | id in s'.stations && s'.stations[id].link.Some? ::
                 s'.stations[id].link == s.stations[id].link
    decreases |ops|
  {
    if ops != [] {
      var s1 := Step(s, ops[0], config);
      StoppingStep(s, ops[0], config);
      StoppingConnectsNobody(s1, ops[1..], config);
    }
  }

  lemma StoppingStep(s: State, op: Op, config: Config)
    requires s.stopping
    ensures var s' := Step(s, op, config);
            && s'.stopping && s'.nextSession == s.nextSession
            && ConnectedIds(s'.events) == ConnectedIds(s.events)
            && s'.stations.Keys <= s.stations.Keys
            && forall id | id in s'.stations && s'.stations[id].link.Some? ::
                 s'.stations[id].link == s.stations[id].link
  {
    StoppingAnnouncesNobody(s, op, config);
    StoppingLinksNobody(s, op, config);
    hide ConnectedIds, Step;
  }

  lemma StoppingLinksNobody(s: State, op: Op, config: Config)
    requires s.stopping
    ensures var s' := Step(s, op, config);
            && s'.stopping && s'.nextSession == s.nextSession && s'.stations.Keys <= s.stations.Keys
            && forall id | id in s'.stations && s'.stations[id].link.Some? ::
                 s'.stations[id].link == s.stations[id].link
  {
  }

  lemma StoppingAnnouncesNobody(s: State, op: Op, config: Config)
    requires s.stopping
    ensures ConnectedIds(Step(s, op, config).events) == ConnectedIds(s.events)
  {
    var s' := Step(s, op, config);
    if op.Forget? && op.id in s.stations {
      var u := Unlink(s, op.id, Forgotten);
      UnlinkAnnouncesNobody(s, op.id, Forgotten);
      IdsAppend(u.events, StationForgotten(op.id));
    } else if op.EndSession? || op.SweepStation? {
      if op.id in s.stations {
        UnlinkAnnouncesNobody(s, op.id, if op.EndSession? then op.reason else Shutdown);
      }
    } else if s'.events != s.events {
      IdsAppend(s.events, if op.RecordFrame? then FrameSeen(op.id, op.direction) else StateChanged(op.id));
    }
  }

  lemma UnlinkAnnouncesNobody(s: State, id: StationId, reason: DisconnectReason)
    requires id in s.stations
    ensures ConnectedIds(Unlink(s, id, reason).events) == ConnectedIds(s.events)
  {
    if s.stations[id].link.Some? {
      IdsAppend(s.events, Disconnected(id, s.stations[id].link.value, reason));
    }
  }

  /** Once stopping and swept, nothing is ever connected again: every later step refuses
      registrations and announces neither a connection nor the end of one. */
  lemma {:induction false} ShutdownIsFinal(s: State, ops: seq<Op>, config: Config)
    requires s.stopping && AllIdle(s)
    ensures var s' := Run(s, ops, config);
            && s'.stopping && AllIdle(s') && s'.nextSession == s.nextSession
            && ConnectedIds(s'.events) == ConnectedIds(s.events)
            && EndedIds(s'.events) == EndedIds(s.events)
    decreases |ops|
  {
    if ops != [] {
      var s1 := Step(s, ops[0], config);
      assert AllIdle(s1) && s1.nextSession == s.nextSession;
      if s1.events != s.events {
        var e := s1.events[|s.events|];
        assert s1.events == s.events + [e] && !e.Connected? && !e.Disconnected?;
        IdsAppend(s.events, e);
      }
      ShutdownIsFinal(s1, ops[1..], config);
    }
  }

  lemma {:induction false} RunConcat(s: State, a: seq<Op>, b: seq<Op>, config: Config)
    ensures Run(s, a + b, config) == Run(Run(s, a, config), b, config)
    decreases |a|
  {
    hide Step;
    if a == [] {
      assert a + b == b;
    } else {
      assert (a + b)[0] == a[0] && (a + b)[1..] == a[1..] + b;
      RunConcat(Step(s, a[0], config), a[1..], b, config);
    }
  }

  /** A whole shutdown, at any point of any run: the stop flag, whatever happens while the sessions
      close, the sweep of the stations registered by then, and whatever happens after it. Nobody is
      connected from the stop flag on, everybody is idle from the sweep on, and after the sweep no
      session ends any more. */
  lemma NobodyConnectsAfterAShutdown(s: State, before: seq<Op>, during: seq<Op>, ids: seq<StationId>,
                                     after: seq<Op>, config: Config)
    requires forall id | id in Run(s, before + [BeginShutdown] + during, config).stations :: id in ids
    ensures var stopped := Run(s, before + [BeginShutdown], config);
            var swept := Run(s, before + [BeginShutdown] + during + SweepOps(ids), config);
            var end := Run(s, before + [BeginShutdown] + during + SweepOps(ids) + after, config);
            && AllIdle(swept) && AllIdle(end) && end.nextSession == stopped.nextSession
            && ConnectedIds(end.events) == ConnectedIds(stopped.events)
            && EndedIds(end.events) == EndedIds(swept.events)
  {
    var opening := before + [BeginShutdown];
    RunConcat(s, before, [BeginShutdown], config);
    StopFlag(Run(s, before, config), config);
    RunConcat(s, opening, during, config);
    RunConcat(s, opening + during, SweepOps(ids), config);
    RunConcat(s, opening + during + SweepOps(ids), after, config);
    var stopped := Run(s, opening, config);
    var closing := Run(s, opening + during, config);
    hide Run, SweepOps, ConnectedIds, EndedIds;
    StoppingConnectsNobody(stopped, during, config);
    StoppingConnectsNobody(closing, SweepOps(ids), config);
    SweepUnlinks(closing, ids, config);
    ShutdownIsFinal(Run(closing, SweepOps(ids), config), after, config);
  }

  lemma StopFlag(s: State, config: Config)
    ensures Run(s, [BeginShutdown], config).stopping
  {
    assert Run(Step(s, BeginShutdown, config), [], config).stopping;
  }
}
