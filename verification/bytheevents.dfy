/** What every operation of the registry does in any run, told by the events so far: who is known, who
    is linked, and whether the shutdown has begun. */
module ByTheEvents {
  import opened Options
  import opened StationRecords
  import opened Registry
  import LateCalls

  lemma {:induction false} StoppingIsRemembered(s: State, ops: seq<Op>, config: Config)
    ensures Run(s, ops, config).stopping <==> s.stopping || BeginShutdown in ops
    decreases |ops|
  {
    if ops != [] {
      var s1 := Step(s, ops[0], config);
      assert s1.stopping <==> s.stopping || ops[0] == BeginShutdown;
      hide Step;
      StoppingIsRemembered(s1, ops[1..], config);
      assert BeginShutdown in ops <==> ops[0] == BeginShutdown || BeginShutdown in ops[1..];
    }
  }

  /** In every run the registry holds what the events say. */
  lemma EventsTell(ops: seq<Op>, config: Config)
    ensures var s := Run(Initial, ops, config);
            && s.stations.Keys == LateCalls.KnownIds(s.events)
            && (s.stopping <==> BeginShutdown in ops)
            && forall id :: PhaseOf(s.events, id) == LinkPhase(s, id)
  {
    assert LateCalls.AllLand(Initial);
    LateCalls.RunLands(Initial, ops, config);
    RunKeepsInv(Initial, ops, config);
    StoppingIsRemembered(Initial, ops, config);
    var s := Run(Initial, ops, config);
    assert forall id :: id in s.stations <==> LateCalls.Known(s.events, id);
    hide Run, LateCalls.KnownIds, PhaseOf;
    assert PhasesAgree(s);
  }

  /** The end of the linked session, if there is one, as announced. */
  function EndOf(events: seq<Event>, id: StationId, reason: DisconnectReason): seq<Event> {
    if PhaseOf(events, id).Linked? then [Disconnected(id, PhaseOf(events, id).session, reason)] else []
  }

  function SessionOf(events: seq<Event>, id: StationId): seq<nat> {
    if PhaseOf(events, id).Linked? then [PhaseOf(events, id).session] else []
  }

  /** A known station keeps its record, a new one gets an empty one. */
  function Linking(stations: map<StationId, Station>, id: StationId, session: nat): map<StationId, Station> {
    stations[id := if id in stations then stations[id].(link := Some(session))
                   else Station(Some(session), Past([], []), [], [], [], session)]
  }

  function Unlinking(stations: map<StationId, Station>, id: StationId): map<StationId, Station> {
    if id in stations then stations[id := stations[id].(link := None)] else stations
  }

  /** A registration succeeds exactly if no shutdown has begun and the station is known or there is
      room for another. It replaces the linked session, if any, and becomes the linked one under the
      next number; a known station keeps its record. Otherwise nothing changes, and the refusal names
      the shutdown exactly if one has begun. */
  lemma RegistersExactlyWhen(ops: seq<Op>, config: Config, id: StationId)
    ensures var s := Run(Initial, ops, config);
            var s', known, next := Step(s, Register(id), config), LateCalls.KnownIds(s.events), s.nextSession + 1;
            if BeginShutdown !in ops && (id in known || |known| < config.maxStations) then
              && Outcome(s, id, config) == Registered(next)
              && s'.events == s.events + EndOf(s.events, id, Replaced) + [Connected(id, next)]
              && s'.closes == s.closes + SessionOf(s.events, id)
              && s'.nextSession == next && s'.stopping == s.stopping
              && s'.stations == Linking(s.stations, id, next)
            else
              && s' == s
              && Outcome(s, id, config) == if BeginShutdown in ops then RefusedShutdown else RefusedTooManyStations
  {
    EventsTell(ops, config);
    hide Run, LateCalls.KnownIds, PhaseOf;
  }

  /** A session ends exactly if it is the linked one, with the reason it gives. */
  lemma EndsExactlyWhen(ops: seq<Op>, config: Config, id: StationId, session: nat, reason: EndReason)
    ensures var s := Run(Initial, ops, config);
            Step(s, EndSession(id, session, reason), config) ==
            if PhaseOf(s.events, id) != Linked(session) then s
            else s.(stations := Unlinking(s.stations, id),
                    events := s.events + [Disconnected(id, session, reason)])
  {
    EventsTell(ops, config);
    hide Run, LateCalls.KnownIds, PhaseOf;
  }

  /** A known station is forgotten, after its session was ended and told to close. */
  lemma ForgetsExactlyWhen(ops: seq<Op>, config: Config, id: StationId)
    ensures var s := Run(Initial, ops, config);
            Step(s, Forget(id), config) ==
            if id !in LateCalls.KnownIds(s.events) then s
            else s.(stations := s.stations - {id},
                    events := s.events + EndOf(s.events, id, Forgotten) + [StationForgotten(id)],
                    closes := s.closes + SessionOf(s.events, id))
  {
    EventsTell(ops, config);
    hide Run, LateCalls.KnownIds, PhaseOf;
    var s := Run(Initial, ops, config);
    assert s.closes + [] == s.closes;
    if id in s.stations {
      assert Unlinking(s.stations, id) - {id} == s.stations - {id};
      assert s.events + [] + [StationForgotten(id)] == s.events + [StationForgotten(id)];
    }
  }

  /** The sweep ends what is still linked, because of the shutdown, and tells nobody to close. */
  lemma SweepsExactlyWhen(ops: seq<Op>, config: Config, id: StationId)
    ensures var s := Run(Initial, ops, config);
            Step(s, SweepStation(id), config) ==
            if !PhaseOf(s.events, id).Linked? then s
            else s.(stations := Unlinking(s.stations, id),
                    events := s.events + EndOf(s.events, id, Shutdown))
  {
    EventsTell(ops, config);
    hide Run, LateCalls.KnownIds, PhaseOf;
  }

  /** A frame is recorded, and a CALL that was answered folded in, exactly for the linked session;
      subscribers are told of the frame if there are any, and of the change if there is one. */
  lemma LinkedSessionsAreRecorded(ops: seq<Op>, config: Config, id: StationId, session: nat,
                                  direction: Direction, frame: Frame, call: TrackedCall, tell: bool)
    ensures var s := Run(Initial, ops, config);
            var recorded, tracked := Step(s, RecordFrame(id, session, direction, frame, tell), config),
                                     Step(s, Track(id, session, call, tell), config);
            if PhaseOf(s.events, id) != Linked(session) then recorded == s && tracked == s
            else
              && id in s.stations
              && recorded == s.(
                   stations := s.stations[id := s.stations[id].(
                     past := AfterFrame(s.stations[id].past, direction, frame, config.historyBytesCap))],
                   events := s.events + if tell then [FrameSeen(id, direction)] else [])
              && tracked == s.(
                   stations := s.stations[id := s.stations[id].(tracked := s.stations[id].tracked + [call])],
                   events := s.events + if tell then [StateChanged(id)] else [])
  {
    EventsTell(ops, config);
    hide Run, LateCalls.KnownIds, PhaseOf, AfterFrame;
    var s := Run(Initial, ops, config);
    assert s.events + [] == s.events;
  }

  /** What the engine's own calls come back with is announced exactly if the station is known; an
      answer that changes nothing is not. */
  lemma LateChangesAreAnnounced(ops: seq<Op>, config: Config, id: StationId, session: nat, call: TrackedCall)
    ensures var s := Run(Initial, ops, config);
            var told := s.events + if id in LateCalls.KnownIds(s.events) then [StateChanged(id)] else [];
            && Step(s, NoteFailedCall(id, session), config).events == told
            && Step(s, TrackResult(id, session, call, true), config).events == told
            && Step(s, TrackResult(id, session, call, false), config) == s
  {
    EventsTell(ops, config);
    hide Run, LateCalls.KnownIds, PhaseOf;
    var s := Run(Initial, ops, config);
    assert s.events + [] == s.events;
  }
}
