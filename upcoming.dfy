/**
 * `get_upcoming_events` and `get_nearest_event`: the active events at or
 * after `now`, earliest first, cut to `limit` (the SQL `WHERE is_active=1 AND
 * time >= ? ORDER BY time ASC LIMIT ?`). The local `now` is a parameter.
 */
module Upcoming {
  import opened Options
  import opened Tables

  /** One listed event: its id with its row. */
  datatype Entry = Entry(id: EventId, ev: Event)

  /** The `WHERE` clause. */
  predicate IsUpcoming(ev: Event, now: int) { ev.isActive && ev.time >= now }

  /** The ids the `WHERE` clause selects. */
  ghost function Due(events: map<EventId, Event>, now: int): set<EventId>
  {
    set id | id in events && IsUpcoming(events[id], now)
  }

  ghost predicate SortedByTime(s: seq<Entry>)
  {
    forall i, j :: 0 <= i < j < |s| ==> s[i].ev.time <= s[j].ev.time
  }

  ghost predicate DistinctIds(s: seq<Entry>)
  {
    forall i, j :: 0 <= i < j < |s| ==> s[i].id != s[j].id
  }

  ghost function Ids(s: seq<Entry>): set<EventId>
  {
    set i | 0 <= i < |s| :: s[i].id
  }

  /** Every entry is a selected row of the table, unchanged. */
  ghost predicate Selected(s: seq<Entry>, events: map<EventId, Event>, now: int)
  {
    forall i :: 0 <= i < |s| ==> s[i].id in events && events[s[i].id] == s[i].ev && IsUpcoming(s[i].ev, now)
  }

  /** The number of rows `LIMIT` lets through; SQLite reads a negative limit as no limit. */
  function Limited(n: nat, limit: int): (k: nat)
    ensures k <= n
    ensures limit >= 0 ==> k <= limit
    ensures k < n ==> k == limit
  {
    if 0 <= limit < n then limit else n
  }

  /** Where an event at time `t` goes in a list sorted by time: after every entry not later than `t`. */
  function InsertPos(s: seq<Entry>, t: int): (k: nat)
    requires SortedByTime(s)
    ensures k <= |s|
    ensures forall i :: 0 <= i < k ==> s[i].ev.time <= t
    ensures forall i :: k <= i < |s| ==> s[i].ev.time > t
  {
    if s == [] || s[0].ev.time > t then 0 else 1 + InsertPos(s[1..], t)
  }

  /** A sequence without repeated ids has as many ids as entries. */
  lemma {:induction false} DistinctIdsCard(s: seq<Entry>)
    requires DistinctIds(s)
    ensures |Ids(s)| == |s|
  {
    if s != [] {
      var init := s[..|s| - 1];
      assert DistinctIds(init);
      DistinctIdsCard(init);
      assert Ids(s) == Ids(init) + {s[|s| - 1].id};
      assert s[|s| - 1].id !in Ids(init);
    }
  }

  /** Putting a new selected entry at its sorted position keeps the list selected, sorted and repetition-free. */
  lemma InsertKeepsOrder(s: seq<Entry>, k: nat, x: Entry, events: map<EventId, Event>, now: int)
    requires k <= |s| && SortedByTime(s) && DistinctIds(s) && Selected(s, events, now)
    requires forall i :: 0 <= i < k ==> s[i].ev.time <= x.ev.time
    requires forall i :: k <= i < |s| ==> s[i].ev.time > x.ev.time
    requires x.id !in Ids(s)
    requires x.id in events && events[x.id] == x.ev && IsUpcoming(x.ev, now)
    ensures var t := s[..k] + [x] + s[k..];
      SortedByTime(t) && DistinctIds(t) && Selected(t, events, now) && Ids(t) == Ids(s) + {x.id}
  {
    var t := s[..k] + [x] + s[k..];
    assert forall i :: 0 <= i < k ==> t[i] == s[i];
    assert t[k] == x;
    assert forall i :: k < i < |t| ==> t[i] == s[i - 1];
    assert Ids(t) == Ids(s) + {x.id} by {
      forall y | y in Ids(t) ensures y in Ids(s) + {x.id} {
        var i :| 0 <= i < |t| && t[i].id == y;
        if i < k { assert s[i].id == y; } else if i > k { assert s[i - 1].id == y; }
      }
      forall y | y in Ids(s) ensures y in Ids(t) {
        var i :| 0 <= i < |s| && s[i].id == y;
        if i < k { assert t[i].id == y; } else { assert t[i + 1].id == y; }
      }
    }
    assert DistinctIds(t) by {
      forall i, j | 0 <= i < j < |t| ensures t[i].id != t[j].id {
        if i != k && j != k {
          var i' := if i < k then i else i - 1;
          var j' := if j < k then j else j - 1;
          assert t[i] == s[i'] && t[j] == s[j'];
        } else if i == k {
          assert t[j] == s[j - 1];
          assert s[j - 1].id in Ids(s);
        } else {
          assert t[i] == s[i];
          assert s[i].id in Ids(s);
        }
      }
    }
    assert SortedByTime(t) by {
      forall i, j | 0 <= i < j < |t| ensures t[i].ev.time <= t[j].ev.time {
        if i != k && j != k {
          var i' := if i < k then i else i - 1;
          var j' := if j < k then j else j - 1;
          assert t[i] == s[i'] && t[j] == s[j'];
        } else if i == k {
          assert t[j] == s[j - 1];
        } else {
          assert t[i] == s[i];
        }
      }
    }
  }

  /**
   * Cutting the complete sorted selection after `n` entries keeps it sorted and
   * selected, and nothing left out is earlier than anything kept.
   */
  lemma TruncateKeepsEarliest(all: seq<Entry>, n: nat, events: map<EventId, Event>, now: int)
    requires n <= |all|
    requires Selected(all, events, now) && SortedByTime(all) && DistinctIds(all)
    requires Ids(all) == Due(events, now)
    ensures var r := all[..n];
      Selected(r, events, now) && SortedByTime(r) && DistinctIds(r)
      && forall id :: id in Due(events, now) && id !in Ids(r) ==>
           forall i :: 0 <= i < |r| ==> r[i].ev.time <= events[id].time
  {
    var r := all[..n];
    forall id | id in Due(events, now) && id !in Ids(r)
      ensures forall i :: 0 <= i < |r| ==> r[i].ev.time <= events[id].time
    {
      var j :| 0 <= j < |all| && all[j].id == id;
      assert j >= n;
    }
  }

  /** `get_upcoming_events(limit)` evaluated against the table contents at local time `now`. */
  method GetUpcomingEvents(events: map<EventId, Event>, now: int, limit: int) returns (r: seq<Entry>)
    ensures Selected(r, events, now)
    ensures SortedByTime(r)
    ensures DistinctIds(r)
    ensures |r| == Limited(|Due(events, now)|, limit)
    ensures forall id :: id in Due(events, now) && id !in Ids(r) ==>
              forall i :: 0 <= i < |r| ==> r[i].ev.time <= events[id].time
  {
    var pending := events.Keys;
    var all: seq<Entry> := [];
    while pending != {}
      invariant pending <= events.Keys
      invariant Selected(all, events, now)
      invariant SortedByTime(all)
      invariant DistinctIds(all)
      invariant Ids(all) == Due(events, now) - pending
      decreases pending
    {
      var id :| id in pending;
      var ev := events[id];
      assert id in Due(events, now) <==> IsUpcoming(ev, now);
      if IsUpcoming(ev, now) {
        var k := InsertPos(all, ev.time);
        assert id !in Ids(all);
        InsertKeepsOrder(all, k, Entry(id, ev), events, now);
        all := all[..k] + [Entry(id, ev)] + all[k..];
      }
      pending := pending - {id};
    }
    DistinctIdsCard(all);
    r := all[..Limited(|all|, limit)];
    TruncateKeepsEarliest(all, Limited(|all|, limit), events, now);
  }

  /**
   * `get_nearest_event`: the first of `get_upcoming_events(limit=1)`; `None`
   * exactly when no active event lies at or after `now`.
   */
  method GetNearestEvent(events: map<EventId, Event>, now: int) returns (r: Option<Entry>)
    ensures r.None? <==> Due(events, now) == {}
    ensures r.Some? ==> r.value.id in events && events[r.value.id] == r.value.ev
                        && IsUpcoming(r.value.ev, now)
    ensures r.Some? ==> forall id :: id in Due(events, now) ==> r.value.ev.time <= events[id].time
  {
    var upcoming := GetUpcomingEvents(events, now, 1);
    r := if |upcoming| > 0 then Some(upcoming[0]) else None;
    if r.Some? {
      assert r.value.id in Ids(upcoming);
    } else {
      assert |Due(events, now)| == 0;
    }
  }
}
