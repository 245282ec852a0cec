/** The engine's locked state in its own form: records in a map, updated in place, with bounded
    history and counters. `spec` is what it stands for; every method takes one step of it. */
module Engine {
  import opened Options
  import opened StationRecords
  import opened Registry

  /** One record of the registry as the program stores it. */
  datatype StationRec = StationRec(
    connected: bool, session: Option<nat>, log: Log, tracked: seq<TrackedCall>, failedCalls: nat,
    results: seq<TrackedCall>)

  /** A bounded record stands for an unbounded station. */
  ghost predicate Represents(rec: StationRec, station: Station, config: Config) {
    && rec.session == station.link
    && rec.connected == station.link.Some?
    && Summarises(rec.log, station.past, config.historyCap, config.historyBytesCap)
    && rec.tracked == station.tracked
    && rec.failedCalls == |station.failures|
    && rec.results == CallsOf(station.results)
  }

  /** The answers alone, without the sessions they came through. */
  function CallsOf(results: seq<LateResult>): seq<TrackedCall> {
    seq(|results|, i requires 0 <= i < |results| => results[i].call)
  }

  ghost predicate AllRepresent(records: map<StationId, StationRec>, stations: map<StationId, Station>, config: Config) {
    && records.Keys == stations.Keys
    && forall id | id in records :: Represents(records[id], stations[id], config)
  }

  /** A record as it is created, before its session is linked. */
  const NewRec := StationRec(false, None, EmptyLog, [], 0, [])

  /** No record but that of `id` is touched. */
  ghost predicate OthersKept(before: map<StationId, StationRec>, after: map<StationId, StationRec>, id: StationId) {
    forall x | x != id :: (x in before <==> x in after) && (x in before ==> before[x] == after[x])
  }

  lemma OneUpdateKeepsOthers(records: map<StationId, StationRec>, id: StationId, rec: StationRec)
    ensures OthersKept(records, records[id := rec], id)
  {
  }

  lemma OthersKeptTwice(a: map<StationId, StationRec>, b: map<StationId, StationRec>, c: map<StationId, StationRec>,
                        id: StationId)
    requires OthersKept(a, b, id) && OthersKept(b, c, id)
    ensures OthersKept(a, c, id)
  {
  }

  lemma UpdateRepresents(records: map<StationId, StationRec>, stations: map<StationId, Station>, id: StationId,
                         rec: StationRec, station: Station, config: Config)
    requires AllRepresent(records, stations, config) && Represents(rec, station, config)
    ensures AllRepresent(records[id := rec], stations[id := station], config)
  {
  }

  /** A record whose link changes and nothing else. */
  lemma RelinkRepresents(rec: StationRec, station: Station, link: Option<nat>, config: Config)
    requires Represents(rec, station, config)
    ensures Represents(rec.(session := link, connected := link.Some?), station.(link := link), config)
  {
  }

  /** A record that is linked anew, be it old or just created. */
  lemma LinkRepresents(records: map<StationId, StationRec>, s: State, id: StationId, rec: StationRec, session: nat,
                       config: Config)
    requires AllRepresent(records, s.stations, config)
    requires rec == if id in records then records[id] else NewRec
    ensures AllRepresent(records[id := rec.(session := Some(session), connected := true)],
                         Link(s, id, session).stations, config)
  {
    EmptySummarises(config.historyCap, config.historyBytesCap);
    var station := if id in s.stations then s.stations[id] else NewStation(session);
    assert CallsOf([]) == [];
    hide Summarises, CallsOf;
    assert Represents(rec, station, config);
    RelinkRepresents(rec, station, Some(session), config);
    assert Link(s, id, session).stations == s.stations[id := station.(link := Some(session))];
    hide Represents, AllRepresent, Link;
    UpdateRepresents(records, s.stations, id, rec.(session := Some(session), connected := true),
                     station.(link := Some(session)), config);
  }

  class Core {
    const config: Config
    var stations: map<StationId, StationRec>
    var nextSession: nat
    var stopping: bool
    /** The event stream. */
    var events: seq<Event>
    /** The sessions that were sent a Close command. */
    var closes: seq<nat>
    ghost var spec: State

    ghost predicate Valid()
      reads this
    {
      && AllRepresent(stations, spec.stations, config)
      && spec.nextSession == nextSession
      && spec.stopping == stopping
      && spec.events == events
      && spec.closes == closes
    }

    constructor (config: Config)
      ensures Valid() && this.config == config && spec == Initial
    {
      this.config := config;
      stations, nextSession, stopping, events, closes := map[], 0, false, [], [];
      spec := Initial;
    }

    /** Takes the session of a station, if it has one, and announces its end. */
    method TakeSession(id: StationId, reason: DisconnectReason)
      requires Valid() && id in stations
      modifies this
      ensures Valid() && spec == Unlink(old(spec), id, reason)
      ensures OthersKept(old(stations), stations, id)
      ensures stations.Keys == old(stations.Keys)
    {
      hide Summarises;
      var rec := stations[id];
      if rec.session.Some? {
        RelinkRepresents(rec, spec.stations[id], None, config);
        UpdateRepresents(stations, spec.stations, id, rec.(session := None, connected := false),
                         spec.stations[id].(link := None), config);
        spec := Unlink(spec, id, reason);
        stations := stations[id := rec.(session := None, connected := false)];
        events := events + [Disconnected(id, rec.session.value, reason)];
        if Displaces(reason) {
          closes := closes + [rec.session.value];
        }
      }
    }

    method Register(id: StationId) returns (result: RegisterResult)
      requires Valid()
      modifies this
      ensures Valid() && result == Outcome(old(spec), id, config)
      ensures OthersKept(old(stations), stations, id)
      ensures spec == Step(old(spec), Op.Register(id), config)
    {
      hide Summarises;
      assert |stations| == |stations.Keys| == |spec.stations.Keys| == |spec.stations|;
      assert id in stations <==> id in spec.stations;
      assert OthersKept(stations, stations, id);
      hide AllRepresent, OthersKept;
      if stopping {
        return RefusedShutdown;
      }
      if |stations| >= config.maxStations && id !in stations {
        return RefusedTooManyStations;
      }
      if id in stations {
        TakeSession(id, Replaced);
      }
      ghost var freed := stations;
      AddLink(id);
      OthersKeptTwice(old(stations), freed, stations, id);
      return Registered(nextSession);
    }

    method AddLink(id: StationId)
      requires Valid()
      modifies this
      ensures Valid() && spec == Link(old(spec), id, old(nextSession) + 1)
      ensures OthersKept(old(stations), stations, id)
    {
      hide AllRepresent, OthersKept;
      var rec := if id in stations then stations[id] else NewRec;
      LinkRepresents(stations, spec, id, rec, nextSession + 1, config);
      OneUpdateKeepsOthers(stations, id, rec.(session := Some(nextSession + 1), connected := true));
      nextSession := nextSession + 1;
      spec := Link(spec, id, nextSession);
      stations := stations[id := rec.(session := Some(nextSession), connected := true)];
      events := events + [Connected(id, nextSession)];
    }

    method SessionEnded(id: StationId, session: nat, reason: EndReason)
      requires Valid()
      modifies this
      ensures Valid() && spec == Step(old(spec), EndSession(id, session, reason), config)
      ensures OthersKept(old(stations), stations, id)
    {
      hide Summarises;
      if id in stations && stations[id].session == Some(session) {
        TakeSession(id, reason);
      }
    }

    method Forget(id: StationId) returns (existed: bool)
      requires Valid()
      modifies this
      ensures Valid() && spec == Step(old(spec), Op.Forget(id), config)
      ensures OthersKept(old(stations), stations, id)
      ensures existed == (id in old(stations))
    {
      hide Summarises;
      if id !in stations {
        return false;
      }
      TakeSession(id, Forgotten);
      spec := spec.(stations := spec.stations - {id}, events := spec.events + [StationForgotten(id)]);
      stations := stations - {id};
      events := events + [StationForgotten(id)];
      return true;
    }

    method RecordFrame(id: StationId, session: nat, direction: Direction, frame: Frame, subscribed: bool)
      requires Valid()
      modifies this
      ensures Valid() && spec == Step(old(spec), Op.RecordFrame(id, session, direction, frame, subscribed), config)
      ensures OthersKept(old(stations), stations, id)
    {
      hide Summarises;
      if id in stations && stations[id].session == Some(session) {
        var log := LogFrame(
          stations[id].log, direction, frame, config.historyCap, config.historyBytesCap, spec.stations[id].past);
        var rec := stations[id].(log := log);
        UpdateRepresents(
          stations, spec.stations, id, rec,
          spec.stations[id].(
            past := AfterFrame(spec.stations[id].past, direction, frame, config.historyBytesCap)), config);
        spec := Step(spec, Op.RecordFrame(id, session, direction, frame, subscribed), config);
        stations := stations[id := rec];
        if subscribed {
          events := events + [FrameSeen(id, direction)];
        }
      }
    }

    method Track(id: StationId, session: nat, call: TrackedCall, changes: bool)
      requires Valid()
      modifies this
      ensures Valid() && spec == Step(old(spec), Op.Track(id, session, call, changes), config)
      ensures OthersKept(old(stations), stations, id)
    {
      hide Summarises;
      if id in stations && stations[id].session == Some(session) {
        var rec := stations[id].(tracked := stations[id].tracked + [call]);
        UpdateRepresents(stations, spec.stations, id, rec,
                         spec.stations[id].(tracked := spec.stations[id].tracked + [call]), config);
        spec := Step(spec, Op.Track(id, session, call, changes), config);
        stations := stations[id := rec];
        if changes {
          events := events + [StateChanged(id)];
        }
      }
    }

    /** `note_failed_call`: which session the call was sent through is not looked at. */
    method NoteFailedCall(id: StationId, ghost session: nat)
      requires Valid()
      modifies this
      ensures Valid() && spec == Step(old(spec), Op.NoteFailedCall(id, session), config)
      ensures OthersKept(old(stations), stations, id)
    {
      hide Summarises;
      if id in stations {
        var rec := stations[id].(failedCalls := stations[id].failedCalls + 1);
        UpdateRepresents(stations, spec.stations, id, rec,
                         spec.stations[id].(failures := spec.stations[id].failures + [session]), config);
        spec := Step(spec, Op.NoteFailedCall(id, session), config);
        stations := stations[id := rec];
        events := events + [StateChanged(id)];
      }
    }

    /** `track_result`: the same for the answer of a call; `changes` says whether it means anything. */
    method TrackResult(id: StationId, ghost session: nat, call: TrackedCall, changes: bool)
      requires Valid()
      modifies this
      ensures Valid() && spec == Step(old(spec), Op.TrackResult(id, session, call, changes), config)
      ensures OthersKept(old(stations), stations, id)
    {
      hide Summarises;
      if id in stations && changes {
        var rec := stations[id].(results := stations[id].results + [call]);
        assert CallsOf(spec.stations[id].results + [LateResult(session, call)]) == rec.results;
        hide CallsOf;
        UpdateRepresents(
          stations, spec.stations, id, rec,
          spec.stations[id].(results := spec.stations[id].results + [LateResult(session, call)]), config);
        spec := Step(spec, Op.TrackResult(id, session, call, changes), config);
        stations := stations[id := rec];
        events := events + [StateChanged(id)];
      }
    }

    /** Where `call_timeout` sends a call: to the session that is linked now, or nowhere. */
    method FindSession(id: StationId) returns (target: CallTarget)
      requires Valid()
      ensures target == Target(spec, id)
    {
      if id !in stations {
        return UnknownStation;
      }
      match stations[id].session
      case None => return NotConnected;
      case Some(session) => return Through(session);
    }

    method BeginShutdown()
      requires Valid()
      modifies this
      ensures Valid() && spec == Step(old(spec), Op.BeginShutdown, config)
    {
      hide Summarises;
      stopping := true;
      spec := Step(spec, Op.BeginShutdown, config);
    }

    method SweepOne(id: StationId)
      requires Valid() && id in stations
      modifies this
      ensures Valid() && spec == Step(old(spec), SweepStation(id), config)
      ensures OthersKept(old(stations), stations, id)
      ensures stations.Keys == old(stations.Keys)
    {
      hide Summarises;
      TakeSession(id, Shutdown);
    }

    /** The end of a shutdown: sessions that could not report their end are ended here. */
    method Sweep() returns (ghost visited: seq<StationId>)
      requires Valid()
      modifies this
      ensures Valid() && spec == Run(old(spec), SweepOps(visited), config)
      ensures EachOnce(visited, stations.Keys) && stations.Keys == old(stations.Keys)
      ensures AllIdle(spec) && forall id | id in stations :: !stations[id].connected
    {
      visited := SweepAll();
      EachIsIn(visited, stations.Keys);
      hide EachOnce;
      SweepUnlinks(old(spec), visited, config);
    }

    method SweepAll() returns (ghost visited: seq<StationId>)
      requires Valid()
      modifies this
      ensures Valid() && spec == Run(old(spec), SweepOps(visited), config)
      ensures EachOnce(visited, stations.Keys) && stations.Keys == old(stations.Keys)
    {
      visited := [];
      ghost var all := stations.Keys;
      NoneYet(all);
      assert spec == Run(spec, SweepOps(visited), config);
      hide *;
      var left := stations.Keys;
      while left != {}
        invariant Valid() && spec == Run(old(spec), SweepOps(visited), config)
        invariant left <= all == stations.Keys
        invariant EachOnce(visited, all - left)
        decreases left
      {
        var id :| id in left;
        SweepAppend(old(spec), visited, id, config);
        OnceMore(visited, all, left, id);
        SweepOne(id);
        visited := visited + [id];
        left := left - {id};
      }
      assert all - left == all;
    }
  }

  /** The list names every id of the set once, and no other. */
  ghost predicate EachOnce(ids: seq<StationId>, all: set<StationId>) {
    multiset(ids) == multiset(all)
  }

  lemma NoneYet(all: set<StationId>)
    ensures EachOnce([], all - all)
  {
    assert all - all == {};
  }

  lemma OnceMore(ids: seq<StationId>, all: set<StationId>, left: set<StationId>, id: StationId)
    requires EachOnce(ids, all - left) && id in left && left <= all
    ensures EachOnce(ids + [id], all - (left - {id}))
  {
    assert all - (left - {id}) == (all - left) + {id};
  }

  lemma EachIsIn(ids: seq<StationId>, all: set<StationId>)
    requires EachOnce(ids, all)
    ensures forall id | id in all :: id in ids
  {
    assert forall id | id in all :: id in multiset(ids);
  }

  lemma {:induction false} SweepAppend(s: State, ids: seq<StationId>, id: StationId, config: Config)
    ensures Run(s, SweepOps(ids + [id]), config) == Step(Run(s, SweepOps(ids), config), SweepStation(id), config)
    decreases |ids|
  {
    if ids == [] {
      assert SweepOps([id]) == [SweepStation(id)];
      assert [] + [id] == [id];
      assert Run(Step(s, SweepStation(id), config), [], config) == Step(s, SweepStation(id), config);
    } else {
      assert (ids + [id])[1..] == ids[1..] + [id];
      assert SweepOps(ids)[1..] == SweepOps(ids[1..]);
      assert SweepOps(ids + [id])[1..] == SweepOps(ids[1..] + [id]);
      SweepAppend(Step(s, SweepStation(ids[0]), config), ids[1..], id, config);
    }
  }
}
