/** What arrives late: failures and answers of calls whose session is no longer the current one.

    The registry folds them into whatever record the station id has by then. Which record that is
    follows from the events alone: from those after the session was announced. */
module LateCalls {
  import opened Options
  import opened StationRecords
  import opened Registry

  /** The record a late call finds under its station id. */
  datatype Landing = OwnRecord | NewRecord | NoRecord

  function LandingAfter(landing: Landing, e: Event, id: StationId): Landing {
    if e == StationForgotten(id) then NoRecord
    else if landing == NoRecord && e.Connected? && e.station == id then NewRecord
    else landing
  }

  /** What an observer concludes from the events from `from` on. */
  function LandingSince(events: seq<Event>, from: nat, id: StationId): Landing {
    if |events| <= from then OwnRecord
    else LandingAfter(LandingSince(events[..|events| - 1], from, id), events[|events| - 1], id)
  }

  ghost predicate ForgottenSince(events: seq<Event>, from: nat, id: StationId) {
    exists j :: from <= j < |events| && events[j] == StationForgotten(id)
  }

  /** The station was forgotten, has connected after that, and was not forgotten again. */
  ghost predicate BackSince(events: seq<Event>, from: nat, id: StationId) {
    exists j :: from <= j < |events| && BackAt(events, from, id, j)
  }

  ghost predicate BackAt(events: seq<Event>, from: nat, id: StationId, j: nat)
    requires j < |events|
  {
    && events[j].Connected? && events[j].station == id
    && ForgottenSince(events[..j], from, id) && !ForgottenSince(events, j, id)
  }

  lemma LandingAppend(events: seq<Event>, e: Event, from: nat, id: StationId)
    ensures LandingSince(events + [e], from, id) ==
            if from > |events| then OwnRecord else LandingAfter(LandingSince(events, from, id), e, id)
  {
    assert (events + [e])[..|events|] == events;
  }

  /** The conclusion in words: its own record unless the station was forgotten since, a new one if it
      then came back, and otherwise none. */
  lemma {:induction false} LandingInWords(events: seq<Event>, from: nat, id: StationId)
    ensures LandingSince(events, from, id) == OwnRecord <==> !ForgottenSince(events, from, id)
    ensures LandingSince(events, from, id) == NewRecord <==> BackSince(events, from, id)
  {
    if |events| > from {
      var n := |events| - 1;
      var before, e := events[..n], events[n];
      LandingInWords(before, from, id);
      ForgottenBefore(events, from, id);
      BackBefore(events, from, id);
    }
  }

  lemma ForgottenBefore(events: seq<Event>, from: nat, id: StationId)
    requires events != []
    ensures var n := |events| - 1;
            ForgottenSince(events, from, id) <==>
              ForgottenSince(events[..n], from, id) || (from <= n && events[n] == StationForgotten(id))
  {
    var n := |events| - 1;
    if ForgottenSince(events[..n], from, id) {
      var j :| from <= j < n && events[..n][j] == StationForgotten(id);
      assert events[j] == StationForgotten(id);
    }
    if ForgottenSince(events, from, id) {
      var j :| from <= j < |events| && events[j] == StationForgotten(id);
      if j < n {
        assert events[..n][j] == StationForgotten(id);
      }
    }
  }

  lemma BackBefore(events: seq<Event>, from: nat, id: StationId)
    requires from < |events|
    ensures var n := |events| - 1;
            BackSince(events, from, id) <==>
              if events[n] == StationForgotten(id) then false
              else BackSince(events[..n], from, id)
                   || (ForgottenSince(events[..n], from, id) && events[n].Connected? && events[n].station == id)
  {
    var n := |events| - 1;
    var before := events[..n];
    forall j | from <= j < n
      ensures before[..j] == events[..j]
      ensures BackAt(events, from, id, j) <==> BackAt(before, from, id, j) && events[n] != StationForgotten(id)
    {
      ForgottenBefore(events, j, id);
      assert before[..j] == events[..j];
    }
    ForgottenBefore(events, n, id);
    assert !ForgottenSince(before, n, id);
    if BackSince(events, from, id) {
      var j :| from <= j < |events| && BackAt(events, from, id, j);
    }
    if BackSince(before, from, id) && events[n] != StationForgotten(id) {
      var j :| from <= j < n && BackAt(before, from, id, j);
      assert BackAt(events, from, id, j);
    }
    if ForgottenSince(before, from, id) && events[n].Connected? && events[n].station == id {
      assert BackAt(events, from, id, n);
    }
  }

  /** The stations an observer expects to be in the registry. */
  function KnownIds(events: seq<Event>): set<StationId> {
    if events == [] then {} else
    match events[|events| - 1]
    case Connected(id, _) => KnownIds(events[..|events| - 1]) + {id}
    case StationForgotten(id) => KnownIds(events[..|events| - 1]) - {id}
    case _ => KnownIds(events[..|events| - 1])
  }

  predicate Known(events: seq<Event>, id: StationId) { id in KnownIds(events) }

  lemma KnownAppend(events: seq<Event>, e: Event, id: StationId)
    ensures Known(events + [e], id) ==
            (e != StationForgotten(id) && ((e.Connected? && e.station == id) || Known(events, id)))
  {
    assert (events + [e])[..|events|] == events;
  }

  // ---- every run -------------------------------------------------------------------------------

  /** For each announced session, the record under its id is as the events say: created no later
      than the session, created after it, or missing. */
  ghost predicate AllLand(s: State) {
    && (forall id :: id in s.stations <==> Known(s.events, id))
    && (forall id | id in s.stations :: s.stations[id].born <= s.nextSession)
    && forall k | 0 <= k < |s.events| && s.events[k].Connected? :: LandsFrom(s, k)
  }

  predicate LandsFrom(s: State, k: nat)
    requires k < |s.events| && s.events[k].Connected?
  {
    Lands(s, LandingSince(s.events, k + 1, s.events[k].station), s.events[k].station, s.events[k].session)
  }

  predicate Lands(s: State, landing: Landing, id: StationId, session: nat) {
    && session <= s.nextSession
    && match landing
       case OwnRecord => id in s.stations && s.stations[id].born <= session
       case NewRecord => id in s.stations && s.stations[id].born > session
       case NoRecord => id !in s.stations
  }

  /** Changes that neither create nor remove a record. */
  lemma QuietLands(s: State, s': State)
    requires AllLand(s) && s'.nextSession == s.nextSession && s'.stations.Keys == s.stations.Keys
    requires forall id | id in s.stations :: s'.stations[id].born == s.stations[id].born
    requires s'.events == s.events ||
             exists e :: s'.events == s.events + [e] && !e.Connected? && !e.StationForgotten?
    ensures AllLand(s')
  {
    hide LandingSince, Known;
    if s'.events != s.events {
      var e :| s'.events == s.events + [e] && !e.Connected? && !e.StationForgotten?;
      forall id ensures Known(s'.events, id) <==> Known(s.events, id) {
        KnownAppend(s.events, e, id);
      }
      forall k | 0 <= k < |s'.events| && s'.events[k].Connected?
        ensures LandsFrom(s', k)
      {
        assert s'.events[k] == s.events[k];
        LandingAppend(s.events, e, k + 1, s.events[k].station);
      }
    }
  }

  lemma LinkLands(s: State, id: StationId)
    requires AllLand(s)
    ensures AllLand(Link(s, id, s.nextSession + 1))
  {
    hide LandingSince, Known;
    var s', e := Link(s, id, s.nextSession + 1), Connected(id, s.nextSession + 1);
    forall x ensures x in s'.stations <==> Known(s'.events, x) {
      KnownAppend(s.events, e, x);
    }
    forall k | 0 <= k < |s'.events| && s'.events[k].Connected?
      ensures LandsFrom(s', k)
    {
      LandingAppend(s.events, e, k + 1, s'.events[k].station);
    }
  }

  lemma RemovingLands(s: State, id: StationId)
    requires AllLand(s) && id in s.stations
    ensures AllLand(s.(stations := s.stations - {id}, events := s.events + [StationForgotten(id)]))
  {
    hide LandingSince, Known;
    var s', e := s.(stations := s.stations - {id}, events := s.events + [StationForgotten(id)]), StationForgotten(id);
    forall x ensures x in s'.stations <==> Known(s'.events, x) {
      KnownAppend(s.events, e, x);
    }
    forall k | 0 <= k < |s'.events| && s'.events[k].Connected?
      ensures LandsFrom(s', k)
    {
      assert s'.events[k] == s.events[k];
      LandingAppend(s.events, e, k + 1, s.events[k].station);
    }
  }

  lemma UnlinkLands(s: State, id: StationId, reason: DisconnectReason)
    requires AllLand(s) && id in s.stations
    ensures AllLand(Unlink(s, id, reason))
  {
    hide AllLand;
    QuietLands(s, Unlink(s, id, reason));
  }

  lemma StepLands(s: State, op: Op, config: Config)
    requires AllLand(s)
    ensures AllLand(Step(s, op, config))
  {
    hide AllLand;
    match op {
      case Register(id) =>
        if Outcome(s, id, config).Registered? {
          var freed := if id in s.stations then Unlink(s, id, Replaced) else s;
          if id in s.stations { UnlinkLands(s, id, Replaced); }
          LinkLands(freed, id);
        }
      case Forget(id) =>
        if id in s.stations {
          UnlinkLands(s, id, Forgotten);
          RemovingLands(Unlink(s, id, Forgotten), id);
        }
      case EndSession(id, _, reason) => if id in s.stations { UnlinkLands(s, id, reason); }
      case SweepStation(id) => if id in s.stations { UnlinkLands(s, id, Shutdown); }
      case _ => QuietLands(s, Step(s, op, config));
    }
  }

  lemma {:induction false} RunLands(s: State, ops: seq<Op>, config: Config)
    requires AllLand(s)
    ensures AllLand(Run(s, ops, config))
    decreases |ops|
  {
    if ops != [] {
      StepLands(s, ops[0], config);
      RunLands(Step(s, ops[0], config), ops[1..], config);
    }
  }

  /** A failure or an answer of a call that was sent through a session, in any run after the session
      was announced (event `k`). It is counted on the session's own record exactly if the station
      was not forgotten since; on a record created later exactly if it was and has connected again;
      and otherwise it is dropped. Whether the session is still the current one does not matter. */
  lemma LateCallsLandByTheEvents(ops: seq<Op>, config: Config, k: nat, call: TrackedCall)
    requires var events := Run(Initial, ops, config).events; k < |events| && events[k].Connected?
    ensures var s := Run(Initial, ops, config);
            var id, session := s.events[k].station, s.events[k].session;
            var failed, answered := Step(s, NoteFailedCall(id, session), config),
                                    Step(s, TrackResult(id, session, call, true), config);
            var forgotten, back := ForgottenSince(s.events, k + 1, id), BackSince(s.events, k + 1, id);
            && (id in s.stations <==> !forgotten || back)
            && (id in s.stations ==> (s.stations[id].born <= session <==> !forgotten))
            && (forgotten && !back ==> failed == s && answered == s)
            && (!forgotten || back ==>
                  && failed.stations == s.stations[id :=
                       s.stations[id].(failures := s.stations[id].failures + [session])]
                  && answered.stations == s.stations[id :=
                       s.stations[id].(results := s.stations[id].results + [LateResult(session, call)])])
  {
    assert AllLand(Initial);
    RunLands(Initial, ops, config);
    var s := Run(Initial, ops, config);
    var id, session := s.events[k].station, s.events[k].session;
    LandingInWords(s.events, k + 1, id);
    assert LandsFrom(s, k);
    hide Run, LandingSince, ForgottenSince, BackSince;
  }

  // ---- the same from any state -------------------------------------------------------------------

  predicate Extends(before: Station, after: Station) {
    && after.born == before.born
    && before.past.actions <= after.past.actions && before.past.recorded <= after.past.recorded
    && before.tracked <= after.tracked && before.failures <= after.failures && before.results <= after.results
  }

  /** A record goes on, with everything it ever held, exactly as long as nobody forgets the station,
      and an observer of the events sees the difference. */
  lemma {:induction false} RecordsGoOnUntilForgotten(s: State, ops: seq<Op>, config: Config, id: StationId)
    requires id in s.stations
    ensures var s' := Run(s, ops, config);
            && s.events <= s'.events
            && (ForgottenSince(s'.events, |s.events|, id) <==> Forget(id) in ops)
            && (Forget(id) !in ops ==> id in s'.stations && Extends(s.stations[id], s'.stations[id]))
    decreases |ops|
  {
    if ops != [] {
      var s1, s' := Step(s, ops[0], config), Run(s, ops, config);
      StepGoesOn(s, ops[0], config, id);
      assert Forget(id) in ops <==> ops[0] == Forget(id) || Forget(id) in ops[1..];
      if ops[0] == Forget(id) {
        EventsOnlyGrow(s1, ops[1..], config);
        hide Run, Step;
        assert s'.events[|s1.events| - 1] == StationForgotten(id);
      } else {
        RecordsGoOnUntilForgotten(s1, ops[1..], config, id);
        hide Run, Step;
        LaterSplits(s'.events, |s.events|, |s1.events|, id);
      }
    }
  }

  lemma LaterSplits(events: seq<Event>, from: nat, middle: nat, id: StationId)
    requires from <= middle <= |events| && forall j | from <= j < middle :: events[j] != StationForgotten(id)
    ensures ForgottenSince(events, from, id) <==> ForgottenSince(events, middle, id)
  {
  }

  lemma StepGoesOn(s: State, op: Op, config: Config, id: StationId)
    requires id in s.stations
    ensures var s' := Step(s, op, config);
            && s.events <= s'.events
            && (op == Forget(id) ==> |s.events| < |s'.events| && s'.events[|s'.events| - 1] == StationForgotten(id))
            && (op != Forget(id) ==>
                  && id in s'.stations && Extends(s.stations[id], s'.stations[id])
                  && forall j | |s.events| <= j < |s'.events| :: s'.events[j] != StationForgotten(id))
  {
    StepAddsEvents(s, op, config);
    if op != Forget(id) {
      StepKeepsRecord(s, op, config, id);
    }
    hide Step, Extends;
  }

  /** A forgotten station is announced as such, last, and nothing else is announced so. */
  lemma StepAddsEvents(s: State, op: Op, config: Config)
    ensures var s' := Step(s, op, config);
            && s.events <= s'.events
            && (op.Forget? && op.id in s.stations ==>
                  |s.events| < |s'.events| && s'.events[|s'.events| - 1] == StationForgotten(op.id))
            && forall j | |s.events| <= j < |s'.events| && s'.events[j].StationForgotten? ::
                 op == Forget(s'.events[j].station)
  {
  }

  lemma StepKeepsRecord(s: State, op: Op, config: Config, id: StationId)
    requires id in s.stations && op != Forget(id)
    ensures id in Step(s, op, config).stations && Extends(s.stations[id], Step(s, op, config).stations[id])
  {
  }

  lemma {:induction false} EventsOnlyGrow(s: State, ops: seq<Op>, config: Config)
    ensures s.events <= Run(s, ops, config).events
    decreases |ops|
  {
    if ops != [] {
      StepAddsEvents(s, ops[0], config);
      hide Step;
      EventsOnlyGrow(Step(s, ops[0], config), ops[1..], config);
    }
  }

  // ---- where a call is sent ----------------------------------------------------------------------

  /** A call goes through the session the events announced last, is refused with "not connected" once
      that has ended, and with "unknown station" if the station never connected or was forgotten. */
  lemma TargetsComeFromTheEvents(ops: seq<Op>, config: Config, id: StationId)
    ensures var s := Run(Initial, ops, config);
            Target(s, id) == if !Known(s.events, id) then UnknownStation
                             else if PhaseOf(s.events, id).Linked? then Through(PhaseOf(s.events, id).session)
                             else NotConnected
  {
    assert AllLand(Initial);
    RunLands(Initial, ops, config);
    RunKeepsInv(Initial, ops, config);
    var s := Run(Initial, ops, config);
    assert PhaseOf(s.events, id) == LinkPhase(s, id);
    hide Run, PhaseOf, Known, KnownIds;
  }

  /** A late failure can end up on a record that its session never wrote to. */
  lemma LateFailuresMayLandElsewhere(id: StationId, config: Config)
    requires config.maxStations > 0
    ensures var s := Run(Initial, [Register(id), Forget(id), Register(id), NoteFailedCall(id, 1)], config);
            && id in s.stations && s.stations[id] == Station(Some(2), NoPast, [], [1], [], 2)
            && s.events != [] && s.events[0] == Connected(id, 1)
  {
    var ops := [Register(id), Forget(id), Register(id), NoteFailedCall(id, 1)];
    var s1 := Step(Initial, ops[0], config);
    var s2 := Step(s1, ops[1], config);
    var s3 := Step(s2, ops[2], config);
    var s4 := Step(s3, ops[3], config);
    assert Run(s4, [], config) == s4;
    assert ops[1..][1..][1..][1..] == [];
    assert s1.stations.Keys == {id} && s2.stations.Keys == {};
    assert ops[1..][0] == ops[1] && ops[1..][1..][0] == ops[2] && ops[1..][1..][1..][0] == ops[3];
    assert Run(s3, ops[1..][1..][1..], config) == s4;
    assert Run(s2, ops[1..][1..], config) == s4;
    assert Run(s1, ops[1..], config) == s4;
  }
}
