/**
 * The bot's two tables, `events` and `players`, held in memory.
 *
 * `events` is keyed by the event id; `players` keeps its rows in insertion
 * order, which is the order `ORDER BY joined_at` lists them in. Times are
 * local wall-clock instants in microseconds since 1970-01-01.
 */
module Tables {
  import opened Options

  type EventId = string
  type UserId = int

  /** The place given to events the bot creates on its own. */
  const DefaultPlace := "Chikovani St."

  /** An `events` row: when, where, and the `is_active` flag. */
  datatype Event = Event(time: int, place: string, isActive: bool)

  /** A `players` row: one user's answer for one event. */
  datatype Row = Row(eventId: EventId, userId: UserId, username: Option<string>,
                     fullName: string, extraCount: int, going: bool)

  // ---------------------------------------------------------------------
  // Queries (SELECT statements) as functions of the table contents
  // ---------------------------------------------------------------------

  /** `get_event`: the row with that id, active or not, or `None`. */
  function GetEvent(events: map<EventId, Event>, id: EventId): (r: Option<Event>)
    ensures r.None? <==> id !in events
    ensures r.Some? ==> r.value == events[id]
  {
    if id in events then Some(events[id]) else None
  }

  /** `list_players`: the rows of one event, in the order they were written. */
  function ListPlayers(rows: seq<Row>, e: EventId): (r: seq<Row>)
    ensures |r| <= |rows|
    ensures forall i :: 0 <= i < |r| ==> r[i].eventId == e && r[i] in rows
    ensures forall x :: x in rows && x.eventId == e ==> x in r
  {
    if rows == [] then []
    else
      var rest := ListPlayers(rows[..|rows| - 1], e);
      var last := rows[|rows| - 1];
      if last.eventId == e then rest + [last] else rest
  }

  /** The rows of one user for one event. */
  function RowsOf(rows: seq<Row>, e: EventId, u: UserId): (r: seq<Row>)
    ensures forall i :: 0 <= i < |r| ==> r[i].eventId == e && r[i].userId == u && r[i] in rows
    ensures forall x :: x in rows && x.eventId == e && x.userId == u ==> x in r
  {
    if rows == [] then []
    else
      var rest := RowsOf(rows[..|rows| - 1], e, u);
      var last := rows[|rows| - 1];
      if last.eventId == e && last.userId == u then rest + [last] else rest
  }

  /** At most one row per (event, user): the invariant the upsert keeps. */
  ghost predicate UniqueKeys(rows: seq<Row>)
  {
    forall i, j :: 0 <= i < j < |rows| ==>
      (rows[i].eventId, rows[i].userId) != (rows[j].eventId, rows[j].userId)
  }

  // ---------------------------------------------------------------------
  // DELETE statements as functions of the table contents
  // ---------------------------------------------------------------------

  /** `DELETE FROM players WHERE event_id=?` */
  function DropEvent(rows: seq<Row>, e: EventId): (r: seq<Row>)
    ensures |r| <= |rows|
    ensures forall i :: 0 <= i < |r| ==> r[i].eventId != e && r[i] in rows
    ensures forall x :: x in rows && x.eventId != e ==> x in r
  {
    if rows == [] then []
    else
      var rest := DropEvent(rows[..|rows| - 1], e);
      var last := rows[|rows| - 1];
      if last.eventId == e then rest else rest + [last]
  }

  /** `DELETE FROM players WHERE event_id=? AND user_id=?` */
  function DropUser(rows: seq<Row>, e: EventId, u: UserId): (r: seq<Row>)
    ensures |r| <= |rows|
    ensures forall i :: 0 <= i < |r| ==> (r[i].eventId, r[i].userId) != (e, u) && r[i] in rows
    ensures forall x :: x in rows && (x.eventId, x.userId) != (e, u) ==> x in r
  {
    if rows == [] then []
    else
      var rest := DropUser(rows[..|rows| - 1], e, u);
      var last := rows[|rows| - 1];
      if last.eventId == e && last.userId == u then rest else rest + [last]
  }

  /** The players table after `upsert_participation`: delete the user's rows, append the new one. */
  function Upsert(rows: seq<Row>, row: Row): (r: seq<Row>)
    ensures |r| >= 1 && r[|r| - 1] == row
    ensures forall x :: x in r ==> x == row || x in rows
    ensures forall x :: x in rows && (x.eventId, x.userId) != (row.eventId, row.userId) ==> x in r
    ensures forall x :: x in r && (x.eventId, x.userId) == (row.eventId, row.userId) ==> x == row
  {
    DropUser(rows, row.eventId, row.userId) + [row]
  }

  // ---------------------------------------------------------------------
  // Filters distribute over concatenation
  // ---------------------------------------------------------------------

  lemma {:induction false} ListPlayersAppend(a: seq<Row>, b: seq<Row>, e: EventId)
    ensures ListPlayers(a + b, e) == ListPlayers(a, e) + ListPlayers(b, e)
    decreases |b|
  {
    if b != [] {
      assert (a + b)[..|a + b| - 1] == a + b[..|b| - 1];
      ListPlayersAppend(a, b[..|b| - 1], e);
    } else {
      assert a + b == a;
    }
  }

  lemma {:induction false} RowsOfAppend(a: seq<Row>, b: seq<Row>, e: EventId, u: UserId)
    ensures RowsOf(a + b, e, u) == RowsOf(a, e, u) + RowsOf(b, e, u)
    decreases |b|
  {
    if b != [] {
      assert (a + b)[..|a + b| - 1] == a + b[..|b| - 1];
      RowsOfAppend(a, b[..|b| - 1], e, u);
    } else {
      assert a + b == a;
    }
  }

  lemma {:induction false} DropUserAppend(a: seq<Row>, b: seq<Row>, e: EventId, u: UserId)
    ensures DropUser(a + b, e, u) == DropUser(a, e, u) + DropUser(b, e, u)
    decreases |b|
  {
    if b != [] {
      assert (a + b)[..|a + b| - 1] == a + b[..|b| - 1];
      DropUserAppend(a, b[..|b| - 1], e, u);
    } else {
      assert a + b == a;
    }
  }

  // ---------------------------------------------------------------------
  // Properties of the delete statements
  // ---------------------------------------------------------------------

  /** Dropping a user's rows leaves none of them and every other user's rows as they were. */
  lemma {:induction false} DropUserRowsOf(rows: seq<Row>, e: EventId, u: UserId, e': EventId, u': UserId)
    ensures RowsOf(DropUser(rows, e, u), e', u') == if (e', u') == (e, u) then [] else RowsOf(rows, e', u')
  {
    if rows != [] {
      DropUserRowsOf(rows[..|rows| - 1], e, u, e', u');
      var last := rows[|rows| - 1];
      var rest := DropUser(rows[..|rows| - 1], e, u);
      if !(last.eventId == e && last.userId == u) {
        RowsOfAppend(rest, [last], e', u');
        assert RowsOf([last], e', u') == RowsOf([] + [last], e', u');
      }
    }
  }

  /** Dropping a user's rows leaves the listing of every other event as it was. */
  lemma {:induction false} DropUserOtherEvent(rows: seq<Row>, e: EventId, u: UserId, e': EventId)
    requires e' != e
    ensures ListPlayers(DropUser(rows, e, u), e') == ListPlayers(rows, e')
  {
    if rows != [] {
      DropUserOtherEvent(rows[..|rows| - 1], e, u, e');
      var last := rows[|rows| - 1];
      if !(last.eventId == e && last.userId == u) {
        ListPlayersAppend(DropUser(rows[..|rows| - 1], e, u), [last], e');
        assert ListPlayers([last], e') == ListPlayers([] + [last], e');
      }
    }
  }

  /** Dropping a user's rows and then listing the event is listing it and then dropping them. */
  lemma {:induction false} DropUserSameEvent(rows: seq<Row>, e: EventId, u: UserId)
    ensures ListPlayers(DropUser(rows, e, u), e) == DropUser(ListPlayers(rows, e), e, u)
  {
    if rows != [] {
      var init := rows[..|rows| - 1];
      DropUserSameEvent(init, e, u);
      var last := rows[|rows| - 1];
      if last.eventId == e && last.userId != u {
        ListPlayersAppend(DropUser(init, e, u), [last], e);
        assert ListPlayers([last], e) == ListPlayers([] + [last], e);
        DropUserAppend(ListPlayers(init, e), [last], e, u);
        assert DropUser([last], e, u) == DropUser([] + [last], e, u);
      } else if last.eventId != e {
        ListPlayersAppend(DropUser(init, e, u), [last], e);
        assert ListPlayers([last], e) == ListPlayers([] + [last], e);
      }
    }
  }

  /** `DELETE FROM players WHERE event_id=?` removes every row of that event and only those. */
  lemma {:induction false} DropEventListPlayers(rows: seq<Row>, e: EventId, e': EventId)
    ensures ListPlayers(DropEvent(rows, e), e') == if e' == e then [] else ListPlayers(rows, e')
  {
    if rows != [] {
      DropEventListPlayers(rows[..|rows| - 1], e, e');
      var last := rows[|rows| - 1];
      var rest := DropEvent(rows[..|rows| - 1], e);
      if last.eventId != e {
        ListPlayersAppend(rest, [last], e');
        assert ListPlayers([last], e') == ListPlayers([] + [last], e');
      }
    }
  }

  /** Dropping rows keeps at most one row per (event, user). */
  /** The last row's key occurs nowhere before it. */
  lemma LastKeyIsNew(rows: seq<Row>)
    requires UniqueKeys(rows) && rows != []
    ensures UniqueKeys(rows[..|rows| - 1])
    ensures forall x :: x in rows[..|rows| - 1] ==>
              (x.eventId, x.userId) != (rows[|rows| - 1].eventId, rows[|rows| - 1].userId)
  {
    var init := rows[..|rows| - 1];
    forall x | x in init ensures (x.eventId, x.userId) != (rows[|rows| - 1].eventId, rows[|rows| - 1].userId) {
      var i :| 0 <= i < |init| && init[i] == x;
      assert rows[i] == x;
    }
  }

  lemma {:induction false} DropUserKeepsUnique(rows: seq<Row>, e: EventId, u: UserId)
    requires UniqueKeys(rows)
    ensures UniqueKeys(DropUser(rows, e, u))
  {
    if rows != [] {
      LastKeyIsNew(rows);
      DropUserKeepsUnique(rows[..|rows| - 1], e, u);
    }
  }

  lemma {:induction false} DropEventKeepsUnique(rows: seq<Row>, e: EventId)
    requires UniqueKeys(rows)
    ensures UniqueKeys(DropEvent(rows, e))
  {
    if rows != [] {
      LastKeyIsNew(rows);
      DropEventKeepsUnique(rows[..|rows| - 1], e);
    }
  }

  // ---------------------------------------------------------------------
  // Properties of the upsert
  // ---------------------------------------------------------------------

  /** After the upsert the user has exactly one row for the event: the new one. */
  lemma UpsertLeavesOneRow(rows: seq<Row>, row: Row)
    ensures RowsOf(Upsert(rows, row), row.eventId, row.userId) == [row]
  {
    var dropped := DropUser(rows, row.eventId, row.userId);
    RowsOfAppend(dropped, [row], row.eventId, row.userId);
    DropUserRowsOf(rows, row.eventId, row.userId, row.eventId, row.userId);
    assert RowsOf([row], row.eventId, row.userId) == RowsOf([] + [row], row.eventId, row.userId);
  }

  /** Every other (event, user) keeps exactly the rows it had. */
  lemma UpsertKeepsOthers(rows: seq<Row>, row: Row, e: EventId, u: UserId)
    requires (e, u) != (row.eventId, row.userId)
    ensures RowsOf(Upsert(rows, row), e, u) == RowsOf(rows, e, u)
  {
    var dropped := DropUser(rows, row.eventId, row.userId);
    RowsOfAppend(dropped, [row], e, u);
    DropUserRowsOf(rows, row.eventId, row.userId, e, u);
    assert RowsOf([row], e, u) == RowsOf([] + [row], e, u);
  }

  lemma UpsertKeepsAllOthers(rows: seq<Row>, row: Row)
    ensures forall e, u :: (e, u) != (row.eventId, row.userId) ==>
              RowsOf(Upsert(rows, row), e, u) == RowsOf(rows, e, u)
  {
    forall e, u | (e, u) != (row.eventId, row.userId)
      ensures RowsOf(Upsert(rows, row), e, u) == RowsOf(rows, e, u)
    {
      UpsertKeepsOthers(rows, row, e, u);
    }
  }

  /**
   * In `list_players` order the new row comes last, after the event's other
   * rows in their old order; other events list exactly as before.
   */
  lemma UpsertListPlayers(rows: seq<Row>, row: Row, e: EventId)
    ensures ListPlayers(Upsert(rows, row), row.eventId)
            == DropUser(ListPlayers(rows, row.eventId), row.eventId, row.userId) + [row]
    ensures e != row.eventId ==> ListPlayers(Upsert(rows, row), e) == ListPlayers(rows, e)
  {
    var dropped := DropUser(rows, row.eventId, row.userId);
    ListPlayersAppend(dropped, [row], e);
    ListPlayersAppend(dropped, [row], row.eventId);
    DropUserSameEvent(rows, row.eventId, row.userId);
    if e != row.eventId { DropUserOtherEvent(rows, row.eventId, row.userId, e); }
    assert ListPlayers([row], e) == ListPlayers([] + [row], e);
    assert ListPlayers([row], row.eventId) == ListPlayers([] + [row], row.eventId);
  }

  /** Deleting a key the table does not hold changes nothing. */
  lemma {:induction false} DropUserAbsent(rows: seq<Row>, e: EventId, u: UserId)
    requires forall i :: 0 <= i < |rows| ==> (rows[i].eventId, rows[i].userId) != (e, u)
    ensures DropUser(rows, e, u) == rows
  {
    if rows != [] {
      DropUserAbsent(rows[..|rows| - 1], e, u);
      assert rows == rows[..|rows| - 1] + [rows[|rows| - 1]];
    }
  }

  /** A user's first answer for an event is appended at the end, nothing else moves. */
  lemma UpsertFirstAnswer(rows: seq<Row>, row: Row)
    requires forall i :: 0 <= i < |rows| ==> (rows[i].eventId, rows[i].userId) != (row.eventId, row.userId)
    ensures Upsert(rows, row) == rows + [row]
  {
    DropUserAbsent(rows, row.eventId, row.userId);
  }

  /** A second answer from the user who answered first moves that user behind everyone else. */
  lemma UpsertSecondAnswer(first: Row, rest: seq<Row>, row: Row)
    requires (first.eventId, first.userId) == (row.eventId, row.userId)
    requires forall i :: 0 <= i < |rest| ==> (rest[i].eventId, rest[i].userId) != (row.eventId, row.userId)
    ensures Upsert([first] + rest, row) == rest + [row]
  {
    DropUserAppend([first], rest, row.eventId, row.userId);
    DropUserAbsent(rest, row.eventId, row.userId);
    assert DropUser([first], row.eventId, row.userId) == [] by { assert [first][..0] == []; }
  }

  /** Listing an event whose rows are all the table holds gives the table back. */
  lemma {:induction false} ListPlayersAll(rows: seq<Row>, e: EventId)
    requires forall i :: 0 <= i < |rows| ==> rows[i].eventId == e
    ensures ListPlayers(rows, e) == rows
  {
    if rows != [] {
      ListPlayersAll(rows[..|rows| - 1], e);
      assert rows == rows[..|rows| - 1] + [rows[|rows| - 1]];
    }
  }

  /** Dropping a user's rows twice is dropping them once. */
  lemma {:induction false} DropUserTwice(rows: seq<Row>, e: EventId, u: UserId)
    ensures DropUser(DropUser(rows, e, u), e, u) == DropUser(rows, e, u)
  {
    if rows != [] {
      DropUserTwice(rows[..|rows| - 1], e, u);
      var last := rows[|rows| - 1];
      var rest := DropUser(rows[..|rows| - 1], e, u);
      if !(last.eventId == e && last.userId == u) {
        DropUserAppend(rest, [last], e, u);
        assert DropUser([last], e, u) == DropUser([] + [last], e, u);
      }
    }
  }

  /**
   * Replacement, not accumulation: a second answer from the same user for the
   * same event wipes out the first, so the table is as if only the second had
   * been given. With `row2 == row1` this is idempotence under retry.
   */
  lemma UpsertSupersedes(rows: seq<Row>, row1: Row, row2: Row)
    requires (row1.eventId, row1.userId) == (row2.eventId, row2.userId)
    ensures Upsert(Upsert(rows, row1), row2) == Upsert(rows, row2)
  {
    var e, u := row1.eventId, row1.userId;
    DropUserAppend(DropUser(rows, e, u), [row1], e, u);
    assert DropUser([row1], e, u) == DropUser([] + [row1], e, u);
    DropUserTwice(rows, e, u);
  }

  /** The upsert keeps at most one row per (event, user). */
  lemma UpsertKeepsUnique(rows: seq<Row>, row: Row)
    requires UniqueKeys(rows)
    ensures UniqueKeys(Upsert(rows, row))
  {
    DropUserKeepsUnique(rows, row.eventId, row.userId);
  }

  // ---------------------------------------------------------------------
  // The database handle
  // ---------------------------------------------------------------------

  /** Both tables, updated in place by the bot's write operations. */
  class Store {
    var events: map<EventId, Event>
    var players: seq<Row>

    /** At most one answer per user per event, and `is_active` is only ever written as 1. */
    ghost predicate Valid()
      reads this
    {
      UniqueKeys(players) && forall id :: id in events ==> events[id].isActive
    }

    /** `init_db` on a fresh database file: both tables empty. */
    constructor ()
      ensures Valid() && events == map[] && players == []
    {
      events := map[];
      players := [];
    }

    /**
     * `create_event`: inserts an active event under the id it is given (the
     * caller supplies a fresh one in place of the wall-clock timestamp).
     */
    method CreateEvent(id: EventId, time: int, place: string) returns (newId: EventId)
      requires Valid()
      requires id !in events
      modifies this
      ensures Valid()
      ensures newId == id
      ensures events == old(events)[id := Event(time, place, true)]
      ensures players == old(players)
      ensures GetEvent(events, newId) == Some(Event(time, place, true))
      ensures forall other :: other != newId ==> GetEvent(events, other) == GetEvent(old(events), other)
    {
      events := events[id := Event(time, place, true)];
      newId := id;
    }

    /**
     * `delete_event`: removes the event's player rows, then the event row.
     * Afterwards the event is gone and has no rows; other events and their
     * rows are untouched.
     */
    method DeleteEvent(id: EventId)
      requires Valid()
      modifies this
      ensures Valid()
      ensures players == DropEvent(old(players), id)
      ensures events == old(events) - {id}
      ensures GetEvent(events, id) == None && ListPlayers(players, id) == []
      ensures forall e :: e != id ==>
                GetEvent(events, e) == GetEvent(old(events), e)
                && ListPlayers(players, e) == ListPlayers(old(players), e)
    {
      DropEventKeepsUnique(players, id);
      forall e ensures ListPlayers(DropEvent(players, id), e) == if e == id then [] else ListPlayers(players, e) {
        DropEventListPlayers(players, id, e);
      }
      players := DropEvent(players, id);
      events := events - {id};
    }

    /**
     * `upsert_participation`: deletes the user's rows for the event, then
     * appends one row with the new answer. The event need not exist.
     */
    method UpsertParticipation(eventId: EventId, userId: UserId, username: Option<string>,
                               fullName: string, going: bool, extraCount: int)
      requires Valid()
      modifies this
      ensures Valid()
      ensures events == old(events)
      ensures players == Upsert(old(players), Row(eventId, userId, username, fullName, extraCount, going))
      ensures RowsOf(players, eventId, userId) == [Row(eventId, userId, username, fullName, extraCount, going)]
      ensures var listed := ListPlayers(players, eventId);
              |listed| > 0 && listed[|listed| - 1] == Row(eventId, userId, username, fullName, extraCount, going)
      ensures forall e, u :: (e, u) != (eventId, userId) ==> RowsOf(players, e, u) == RowsOf(old(players), e, u)
    {
      var row := Row(eventId, userId, username, fullName, extraCount, going);
      UpsertKeepsUnique(players, row);
      UpsertLeavesOneRow(players, row);
      UpsertKeepsAllOthers(players, row);
      ghost var next := Upsert(players, row);
      players := DropUser(players, eventId, userId);
      players := players + [row];
      assert players == next;
    }
  }
}
