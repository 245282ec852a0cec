/** The log of all stations: a `LogStore` and, beside it, the station each row came from.

    The log drops rows by count and by bytes, the tags only by count; a row's tag is nevertheless
    found by the row's number. */
module AllLog {
  import opened Options
  import opened LogView

  /** A control character. No station id holds one, so a key can be taken apart in one way only. */
  const KEY_SEP: char := '\U{001f}'

  function KeyFor(station: string, id: string): MessageKey {
    MessageKey(station + [KEY_SEP] + id)
  }

  lemma KeysTellStationsApart(station: string, id: string, station': string, id': string)
    requires KEY_SEP !in station && KEY_SEP !in station'
    ensures KeyFor(station, id) == KeyFor(station', id') <==> station == station' && id == id'
  {
    var text, text' := station + [KEY_SEP] + id, station' + [KEY_SEP] + id';
    assert text[|station|] == KEY_SEP && text'[|station'|] == KEY_SEP;
    assert |station| < |station'| ==> text'[|station|] != KEY_SEP;
    assert |station'| < |station| ==> text[|station'|] != KEY_SEP;
    if text == text' {
      assert text[..|station|] == station && text'[..|station'|] == station';
      assert text[|station| + 1..] == id && text'[|station'| + 1..] == id';
    }
  }

  /** Row `i` was pushed for `stations[i]`, and its key says so. */
  ghost predicate Tagged(log: Log, stations: seq<string>) {
    && |stations| == |log.all|
    && (forall s | s in stations :: KEY_SEP !in s)
    && forall i | 0 <= i < |log.all| && log.all[i].value.id.Some? :: KeyedBy(log.all[i].value.id.value, stations[i])
  }

  ghost predicate KeyedBy(key: MessageKey, station: string) {
    exists id :: key == KeyFor(station, id)
  }

  /** A CALL and its answer belong to the same station. */
  lemma PairsStayWithinAStation(log: Log, stations: seq<string>, i: nat)
    requires Inv(log) && Tagged(log, stations) && i < |log.all| && log.all[i].value.peer.Some?
    ensures log.all[i].value.peer.value < |stations| && stations[log.all[i].value.peer.value] == stations[i]
  {
    var j := log.all[i].value.peer.value;
    assert PairedAt(log.all, i);
    assert KeyedBy(log.all[i].value.id.value, stations[i]) && KeyedBy(log.all[j].value.id.value, stations[j]);
    var x :| log.all[i].value.id.value == KeyFor(stations[i], x);
    var y :| log.all[j].value.id.value == KeyFor(stations[j], y);
    assert stations[i] in stations && stations[j] in stations;
    KeysTellStationsApart(stations[i], x, stations[j], y);
  }

  /** A window that respects the row limit lies within the last `capacity` rows. */
  lemma WindowIsWithinCapacity(log: Log, limits: Limits)
    requires Windowed(log, limits) && limits.capacity >= 1
    ensures |log.all| <= log.first + limits.capacity
  {
  }

  class Tags {
    var tags: seq<string>
    var pushed: nat
    ghost var all: seq<string>

    ghost predicate Valid()
      reads this
    {
      |all| == pushed && |tags| <= pushed && tags == all[pushed - |tags|..]
    }

    constructor ()
      ensures Valid() && all == [] && tags == []
    {
      tags, pushed, all := [], 0, [];
    }

    method Push(capacity: nat, tag: string)
      requires Valid() && |tags| <= capacity
      modifies this
      ensures Valid() && all == old(all) + [tag]
      ensures |tags| == if |old(tags)| < capacity then |old(tags)| + 1 else capacity
    {
      tags := tags + [tag];
      pushed := pushed + 1;
      all := all + [tag];
      while |tags| > capacity
        invariant Valid() && all == old(all) + [tag] && |tags| <= |old(tags)| + 1
        invariant |old(tags)| < capacity ==> |tags| == |old(tags)| + 1
        invariant |tags| >= capacity || |tags| == |old(tags)| + 1
        decreases |tags|
      {
        tags := tags[1..];
      }
    }

    method Get(number: nat) returns (tag: Option<string>)
      requires Valid()
      ensures tag == if pushed - |tags| <= number < pushed then Some(all[number]) else None
    {
      var first := pushed - |tags|;
      if number < first || number - first >= |tags| {
        return None;
      }
      return Some(tags[number - first]);
    }
  }

  class AllStationsLog {
    const rows: LogStore
    const tags: Tags

    ghost predicate Valid()
      reads this, rows, tags
    {
      && rows.Valid() && tags.Valid()
      && rows.limits.capacity >= 1
      && Tagged(rows.log, tags.all)
      && |tags.tags| == if |tags.all| < rows.limits.capacity then |tags.all| else rows.limits.capacity
    }

    constructor (capacity: nat, maxBytes: nat)
      ensures Valid() && fresh(rows) && fresh(tags) && tags.all == [] && rows.log == Empty
    {
      rows := new LogStore(capacity, maxBytes);
      tags := new Tags();
    }

    method PushFrame(station: string, kind: FrameKind, id: string, ts: int, bytes: nat)
      requires Valid() && KEY_SEP !in station
      modifies rows, tags
      ensures Valid() && tags.all == old(tags.all) + [station]
      ensures rows.log == Step(old(rows.log), Push(FrameEvent(kind, Some(KeyFor(station, id)), ts, bytes)), rows.limits)
    {
      PushRow(station, FrameEvent(kind, Some(KeyFor(station, id)), ts, bytes));
    }

    method PushLine(station: string, ts: int, bytes: nat)
      requires Valid() && KEY_SEP !in station
      modifies rows, tags
      ensures Valid() && tags.all == old(tags.all) + [station]
      ensures rows.log == Step(old(rows.log), Push(LineEvent(ts, bytes)), rows.limits)
    {
      PushRow(station, LineEvent(ts, bytes));
    }

    method PushRow(station: string, event: Event)
      requires Valid() && KEY_SEP !in station && !event.StateChanged?
      requires event.FrameEvent? && event.id.Some? ==> KeyedBy(event.id.value, station)
      modifies rows, tags
      ensures Valid() && tags.all == old(tags.all) + [station]
      ensures rows.log == Step(old(rows.log), Push(event), rows.limits)
    {
      TaggingSurvivesPush(rows.log, tags.all, event, station, rows.limits);
      hide LogView.Inv, LogView.Windowed, Tagged, LogView.Step;
      rows.PushEvent(event);
      tags.Push(rows.limits.capacity, station);
    }

    /** What the view shows beside a row: for every row still held, the station it was pushed for. */
    method TagOf(number: nat) returns (tag: Option<string>)
      requires Valid()
      ensures rows.log.first <= number < |rows.log.all| ==> tag == Some(tags.all[number])
      ensures |rows.log.all| <= number ==> tag == None
    {
      WindowIsWithinCapacity(rows.log, rows.limits);
      tag := tags.Get(number);
    }
  }

  lemma TaggingSurvivesPush(log: Log, stations: seq<string>, event: Event, station: string, limits: Limits)
    requires Inv(log) && Windowed(log, limits) && Tagged(log, stations) && KEY_SEP !in station && !event.StateChanged?
    requires event.FrameEvent? && event.id.Some? ==> KeyedBy(event.id.value, station)
    ensures Tagged(Step(log, Push(event), limits), stations + [station])
  {
    PushKeepsInv(log, event, limits);
    hide LogView.Inv, LogView.Windowed, KeyedBy, Newest;
  }
}
