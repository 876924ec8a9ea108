/**
 * `render_event`: the text the bot posts for one event, built as a list of
 * lines joined with newlines. `fmt_dt` (a locale-dependent `strftime`) is the
 * parameter `fmt`.
 */
module Roster {
  import opened Options
  import opened Text
  import opened Tables

  const NotFound := "Event not found."
  const NobodyGoing := "Nobody yet 👀"
  const NobodyDeclined := "Nobody declined."

  /** `@username` when the user has a non-empty username, else the full name, else "No name". */
  function DisplayName(username: Option<string>, fullName: string): (name: string)
    ensures name != ""
  {
    if username.Some? && username.value != "" then "@" + username.value
    else if fullName != "" then fullName
    else "No name"
  }

  /** The ` +N` mark after a going player's name; empty exactly when N is 0. */
  function ExtraSuffix(extra: int): (s: string)
    ensures s == "" <==> extra == 0
  {
    if extra == 0 then "" else " +" + IntToString(extra)
  }

  /** A non-empty mark is " +" followed by the decimal form of N, which reads back as N. */
  lemma ExtraSuffixReadsBack(extra: int)
    requires extra != 0
    ensures var s := ExtraSuffix(extra);
      |s| > 2 && s[..2] == " +" && ParseInt(s[2..]) == Some(extra)
  {
    IntRoundTrip(extra);
    assert ExtraSuffix(extra)[2..] == IntToString(extra);
  }

  /** A going player's line: a check mark, the display name, and the guests mark. */
  function GoingLine(r: Row): (line: string)
    ensures |line| > 2 && line[0] == '✅' && line[1] == ' '
  {
    "✅ " + DisplayName(r.username, r.fullName) + ExtraSuffix(r.extraCount)
  }

  /** A declined player's line: a cross and the display name, never a guests mark. */
  function NotGoingLine(r: Row): (line: string)
    ensures |line| > 2 && line[0] == '❌' && line[1] == ' '
  {
    "❌ " + DisplayName(r.username, r.fullName)
  }

  /** The rows with `going == 1`, in listing order. */
  function GoingOf(rows: seq<Row>): (r: seq<Row>)
    ensures |r| <= |rows|
  {
    if rows == [] then []
    else if rows[|rows| - 1].going then GoingOf(rows[..|rows| - 1]) + [rows[|rows| - 1]]
    else GoingOf(rows[..|rows| - 1])
  }

  /** The rows with `going == 0`, in listing order. */
  function NotGoingOf(rows: seq<Row>): (r: seq<Row>)
    ensures |r| <= |rows|
  {
    if rows == [] then []
    else if !rows[|rows| - 1].going then NotGoingOf(rows[..|rows| - 1]) + [rows[|rows| - 1]]
    else NotGoingOf(rows[..|rows| - 1])
  }

  /** One line per row, in order. */
  function LinesOf(rows: seq<Row>, line: Row -> string): (lines: seq<string>)
    ensures |lines| == |rows|
  {
    if rows == [] then [] else LinesOf(rows[..|rows| - 1], line) + [line(rows[|rows| - 1])]
  }

  /** The head count against the fixed capacity of 20, which is only shown and never enforced. */
  function GoingHeader(count: nat): string
  {
    "<b>Going (" + IntToString(count) + "/20)</b>:"
  }

  function NotGoingHeader(count: nat): string
  {
    "<b>Not going (" + IntToString(count) + ")</b>:"
  }

  function Header(ev: Event, fmt: int -> string, goingCount: nat): (lines: seq<string>)
    ensures |lines| == 5
  {
    ["⚽ <b>Game</b>", "🕒 " + fmt(ev.time), "📍 " + ev.place, "", GoingHeader(goingCount)]
  }

  /** One line per going player, or the "Nobody yet" sentinel. */
  function GoingSection(going: seq<Row>): (sec: seq<string>)
    ensures |sec| == if going == [] then 1 else |going|
  {
    if going == [] then [NobodyGoing] else LinesOf(going, GoingLine)
  }

  /** One line per player who declined, or the "Nobody declined." sentinel. */
  function NotGoingSection(notGoing: seq<Row>): (sec: seq<string>)
    ensures |sec| == if notGoing == [] then 1 else |notGoing|
  {
    if notGoing == [] then [NobodyDeclined] else LinesOf(notGoing, NotGoingLine)
  }

  /** The lines of the roster of an existing event with the given player rows. */
  function RosterLines(ev: Event, rows: seq<Row>, fmt: int -> string): (lines: seq<string>)
    ensures |lines| == 7 + (if GoingOf(rows) == [] then 1 else |GoingOf(rows)|)
                         + (if NotGoingOf(rows) == [] then 1 else |NotGoingOf(rows)|)
    ensures lines[0] == "⚽ <b>Game</b>" && lines[3] == ""
  {
    var going := GoingOf(rows);
    var notGoing := NotGoingOf(rows);
    Header(ev, fmt, |going|) + GoingSection(going)
    + ["", NotGoingHeader(|notGoing|)] + NotGoingSection(notGoing)
  }

  /**
   * `render_event(event_id)` against the table contents: "Event not found."
   * for an unknown id, otherwise the roster lines joined with newlines.
   */
  method RenderEvent(events: map<EventId, Event>, players: seq<Row>, id: EventId, fmt: int -> string)
    returns (text: string)
    ensures id !in events ==> text == NotFound
    ensures id in events ==> text == Join(RosterLines(events[id], ListPlayers(players, id), fmt), '\n')
  {
    var ev := GetEvent(events, id);
    if ev.None? {
      return NotFound;
    }
    var rows := ListPlayers(players, id);
    var lines := BuildLines(ev.value, rows, fmt);
    text := Join(lines, '\n');
  }

  /** The body of `render_event` once the event is found: the two list-building loops. */
  method BuildLines(ev: Event, rows: seq<Row>, fmt: int -> string) returns (lines: seq<string>)
    ensures lines == RosterLines(ev, rows, fmt)
  {
    var going := GoingOf(rows);
    var notGoing := NotGoingOf(rows);
    var goingLines := GoingLines(going);
    var notGoingLines := DeclinedLines(notGoing);
    lines := Header(ev, fmt, |going|) + goingLines + ["", NotGoingHeader(|notGoing|)] + notGoingLines;
  }

  /** The first loop: a "✅" line per going player, or the "Nobody yet" sentinel. */
  method GoingLines(going: seq<Row>) returns (lines: seq<string>)
    ensures lines == GoingSection(going)
  {
    if going == [] {
      return [NobodyGoing];
    }
    lines := [];
    for i := 0 to |going|
      invariant lines == LinesOf(going[..i], GoingLine)
    {
      var name := DisplayName(going[i].username, going[i].fullName);
      var extra := ExtraSuffix(going[i].extraCount);
      assert going[..i + 1][..i] == going[..i];
      lines := lines + ["✅ " + name + extra];
    }
    assert going[..|going|] == going;
  }

  /** The second loop: a "❌" line per player who declined, or the "Nobody declined." sentinel. */
  method DeclinedLines(notGoing: seq<Row>) returns (lines: seq<string>)
    ensures lines == NotGoingSection(notGoing)
  {
    if notGoing == [] {
      return [NobodyDeclined];
    }
    lines := [];
    for i := 0 to |notGoing|
      invariant lines == LinesOf(notGoing[..i], NotGoingLine)
    {
      var name := DisplayName(notGoing[i].username, notGoing[i].fullName);
      assert notGoing[..i + 1][..i] == notGoing[..i];
      lines := lines + ["❌ " + name];
    }
    assert notGoing[..|notGoing|] == notGoing;
  }

  // ---------------------------------------------------------------------
  // What the roster shows
  // ---------------------------------------------------------------------

  /**
   * The two lists split the rows: every row lands in exactly one of them,
   * going rows in the first, the others in the second.
   */
  lemma {:induction false} Partition(rows: seq<Row>)
    ensures |GoingOf(rows)| + |NotGoingOf(rows)| == |rows|
    ensures multiset(GoingOf(rows)) + multiset(NotGoingOf(rows)) == multiset(rows)
    ensures forall i :: 0 <= i < |GoingOf(rows)| ==> GoingOf(rows)[i].going
    ensures forall i :: 0 <= i < |NotGoingOf(rows)| ==> !NotGoingOf(rows)[i].going
  {
    if rows != [] {
      var init := rows[..|rows| - 1];
      Partition(init);
      assert rows == init + [rows[|rows| - 1]];
    }
  }

  /** The two lists hold exactly the rows of their kind. */
  lemma {:induction false} GoingOfSelects(rows: seq<Row>)
    ensures forall x :: x in GoingOf(rows) <==> x in rows && x.going
    ensures forall x :: x in NotGoingOf(rows) <==> x in rows && !x.going
  {
    if rows != [] {
      var init := rows[..|rows| - 1];
      GoingOfSelects(init);
      assert rows == init + [rows[|rows| - 1]];
    }
  }

  /** Selecting the going rows keeps their order: it distributes over concatenation. */
  lemma {:induction false} GoingOfAppend(a: seq<Row>, b: seq<Row>)
    ensures GoingOf(a + b) == GoingOf(a) + GoingOf(b)
    decreases |b|
  {
    if b != [] {
      assert (a + b)[..|a + b| - 1] == a + b[..|b| - 1];
      GoingOfAppend(a, b[..|b| - 1]);
    } else {
      assert a + b == a;
    }
  }

  /** Selecting the declined rows keeps their order: it distributes over concatenation. */
  lemma {:induction false} NotGoingOfAppend(a: seq<Row>, b: seq<Row>)
    ensures NotGoingOf(a + b) == NotGoingOf(a) + NotGoingOf(b)
    decreases |b|
  {
    if b != [] {
      assert (a + b)[..|a + b| - 1] == a + b[..|b| - 1];
      NotGoingOfAppend(a, b[..|b| - 1]);
    } else {
      assert a + b == a;
    }
  }

  /** A single row lands in the list of its kind and nowhere else. */
  lemma GoingOfSingle(r: Row)
    ensures GoingOf([r]) == (if r.going then [r] else [])
    ensures NotGoingOf([r]) == (if r.going then [] else [r])
  {
    assert [r][..0] == [];
  }

  /**
   * The head count depends on the going flags alone: changing names or extra
   * guests leaves the number of going players as it was.
   */
  lemma {:induction false} GoingCountIgnoresExtra(rows: seq<Row>, rows': seq<Row>)
    requires |rows| == |rows'|
    requires forall i :: 0 <= i < |rows| ==> rows[i].going == rows'[i].going
    ensures |GoingOf(rows)| == |GoingOf(rows')|
    ensures |NotGoingOf(rows)| == |NotGoingOf(rows')|
  {
    if rows != [] {
      GoingCountIgnoresExtra(rows[..|rows| - 1], rows'[..|rows'| - 1]);
    }
  }

  lemma {:induction false} LinesOfAt(rows: seq<Row>, line: Row -> string)
    ensures |LinesOf(rows, line)| == |rows|
    ensures forall i :: 0 <= i < |rows| ==> LinesOf(rows, line)[i] == line(rows[i])
  {
    if rows != [] {
      var init := rows[..|rows| - 1];
      LinesOfAt(init, line);
      assert forall i :: 0 <= i < |init| ==> rows[i] == init[i];
    }
  }

  /** The going section: the sentinel exactly when nobody goes, else one line per going row. */
  lemma GoingSectionAt(going: seq<Row>)
    ensures var sec := GoingSection(going);
      |sec| == (if going == [] then 1 else |going|)
      && (sec[0] == NobodyGoing <==> going == [])
      && forall i :: 0 <= i < |going| ==> sec[i] == GoingLine(going[i])
  {
    LinesOfAt(going, GoingLine);
    if going != [] {
      assert GoingSection(going)[0][0] == '✅';
    }
  }

  /** The declined section: the sentinel exactly when nobody declined, else one line per such row. */
  lemma NotGoingSectionAt(notGoing: seq<Row>)
    ensures var sec := NotGoingSection(notGoing);
      |sec| == (if notGoing == [] then 1 else |notGoing|)
      && (sec[0] == NobodyDeclined <==> notGoing == [])
      && forall i :: 0 <= i < |notGoing| ==> sec[i] == NotGoingLine(notGoing[i])
  {
    LinesOfAt(notGoing, NotGoingLine);
    if notGoing != [] {
      assert NotGoingSection(notGoing)[0][0] == '❌';
    }
  }

  /** The header: the time as `fmt` renders it, the place, and the going head count out of 20. */
  lemma RosterHeader(ev: Event, rows: seq<Row>, fmt: int -> string)
    ensures var lines := RosterLines(ev, rows, fmt);
      |lines| > 5
      && lines[0] == "⚽ <b>Game</b>"
      && lines[1] == "🕒 " + fmt(ev.time) && lines[2] == "📍 " + ev.place
      && lines[3] == ""
      && lines[4] == "<b>Going (" + IntToString(|GoingOf(rows)|) + "/20)</b>:"
  {
    var going := GoingOf(rows);
    var lines := RosterLines(ev, rows, fmt);
    var top := Header(ev, fmt, |going|);
    var mid := top + GoingSection(going) + ["", NotGoingHeader(|NotGoingOf(rows)|)];
    assert lines == mid + NotGoingSection(NotGoingOf(rows));
    assert forall i :: 0 <= i < 5 ==> lines[i] == mid[i] == top[i];
  }

  /**
   * The going section, line by line: one "✅" line per going row in order,
   * or the "Nobody yet" sentinel exactly when there is none.
   */
  lemma RosterGoingPart(ev: Event, rows: seq<Row>, fmt: int -> string)
    ensures var lines := RosterLines(ev, rows, fmt);
      var going := GoingOf(rows);
      |lines| > 5 + |going|
      && (lines[5] == NobodyGoing <==> going == [])
      && (forall i :: 0 <= i < |going| ==> lines[5 + i] == GoingLine(going[i]))
  {
    var going := GoingOf(rows);
    var notGoing := NotGoingOf(rows);
    var top := Header(ev, fmt, |going|);
    var gs := GoingSection(going);
    var rest := ["", NotGoingHeader(|notGoing|)];
    var lines := RosterLines(ev, rows, fmt);
    GoingSectionAt(going);
    assert lines == top + gs + rest + NotGoingSection(notGoing);
    forall i | 0 <= i < |going| ensures lines[5 + i] == GoingLine(going[i]) {
      MiddleAt(top, gs, rest, NotGoingSection(notGoing), i);
    }
  }

  /** Where the second piece of `top + mid + rest + low` sits. */
  lemma MiddleAt(top: seq<string>, mid: seq<string>, rest: seq<string>, low: seq<string>, i: nat)
    requires i < |mid|
    ensures (top + mid + rest + low)[|top| + i] == mid[i]
  {
  }

  /**
   * Below the going section, which ends at line `m`: a blank line, then the
   * "Not going (k)" header with `k` the number of declining rows; the roster
   * ends with their section.
   */
  lemma RosterNotGoingHeader(ev: Event, rows: seq<Row>, fmt: int -> string)
    ensures var lines := RosterLines(ev, rows, fmt);
      var going := GoingOf(rows);
      var notGoing := NotGoingOf(rows);
      var m := 5 + (if going == [] then 1 else |going|);
      |lines| == m + 2 + (if notGoing == [] then 1 else |notGoing|)
      && lines[m] == ""
      && lines[m + 1] == NotGoingHeader(|notGoing|)
  {
    var going := GoingOf(rows);
    var notGoing := NotGoingOf(rows);
    var top := Header(ev, fmt, |going|);
    var gs := GoingSection(going);
    var rest := ["", NotGoingHeader(|notGoing|)];
    var ns := NotGoingSection(notGoing);
    var lines := RosterLines(ev, rows, fmt);
    assert lines == top + gs + rest + ns;
    assert lines[|top| + |gs|] == "" by { TailAt(top, gs, rest, ns, 0); }
    assert lines[|top| + |gs| + 1] == NotGoingHeader(|notGoing|) by { TailAt(top, gs, rest, ns, 1); }
  }

  /**
   * The declined section, line by line, after that header: one "❌" line per
   * declining row in order, or "Nobody declined." exactly when there is none.
   */
  lemma RosterNotGoingPart(ev: Event, rows: seq<Row>, fmt: int -> string)
    ensures var lines := RosterLines(ev, rows, fmt);
      var notGoing := NotGoingOf(rows);
      var m := 5 + (if GoingOf(rows) == [] then 1 else |GoingOf(rows)|);
      |lines| > m + 2 && lines[m + 2..] == NotGoingSection(notGoing)
      && (lines[m + 2] == NobodyDeclined <==> notGoing == [])
  {
    var going := GoingOf(rows);
    var notGoing := NotGoingOf(rows);
    var top := Header(ev, fmt, |going|);
    var gs := GoingSection(going);
    var rest := ["", NotGoingHeader(|notGoing|)];
    var ns := NotGoingSection(notGoing);
    var lines := RosterLines(ev, rows, fmt);
    NotGoingSectionAt(notGoing);
    assert lines == (top + gs + rest) + ns;
    var m := 5 + (if going == [] then 1 else |going|);
    assert |top + gs + rest| == m + 2;
    assert lines[m + 2..] == ns;
    assert lines[m + 2] == ns[0];
  }

  /** Line by line: one "❌" line per declining row, in order, after the "Not going" header. */
  lemma RosterDeclinedLines(ev: Event, rows: seq<Row>, fmt: int -> string)
    ensures var lines := RosterLines(ev, rows, fmt);
      var notGoing := NotGoingOf(rows);
      var m := 5 + (if GoingOf(rows) == [] then 1 else |GoingOf(rows)|);
      forall i :: 0 <= i < |notGoing| ==> m + 2 + i < |lines| && lines[m + 2 + i] == NotGoingLine(notGoing[i])
  {
    var notGoing := NotGoingOf(rows);
    var lines := RosterLines(ev, rows, fmt);
    var m := 5 + (if GoingOf(rows) == [] then 1 else |GoingOf(rows)|);
    RosterNotGoingPart(ev, rows, fmt);
    NotGoingSectionAt(notGoing);
    SliceAt(lines, m + 2, NotGoingSection(notGoing));
  }

  /** A slice read back position by position. */
  lemma SliceAt(lines: seq<string>, k: nat, tail: seq<string>)
    requires k <= |lines| && lines[k..] == tail
    ensures forall i :: 0 <= i < |tail| ==> k + i < |lines| && lines[k + i] == tail[i]
  {
  }

  /** Where the third and fourth pieces of `top + mid + rest + low` sit. */
  lemma TailAt(top: seq<string>, mid: seq<string>, rest: seq<string>, low: seq<string>, i: nat)
    ensures i < |rest| ==> (top + mid + rest + low)[|top| + |mid| + i] == rest[i]
    ensures i < |low| ==> (top + mid + rest + low)[|top| + |mid| + |rest| + i] == low[i]
  {
  }

  /**
   * A says going, B says going with 3 guests, then A changes to not going:
   * whatever the rows hold besides their keys, the event's listing is B's
   * answer followed by A's latest one.
   */
  lemma ThreeAnswersTable(a0: Row, b3: Row, a1: Row)
    requires a0.eventId == b3.eventId == a1.eventId
    requires a0.userId == a1.userId != b3.userId
    ensures ListPlayers(Upsert(Upsert(Upsert([], a0), b3), a1), a0.eventId) == [b3, a1]
  {
    UpsertFirstAnswer([], a0);
    assert [] + [a0] == [a0];
    UpsertFirstAnswer([a0], b3);
    UpsertSecondAnswer(a0, [b3], a1);
    assert [a0] + [b3] == [a0, b3];
    ListPlayersAll([b3, a1], a0.eventId);
  }

  /** The roster of that listing: one player going, B with " +3", and A declined. */
  lemma ThreeAnswersRoster(ev: Event, fmt: int -> string)
    ensures var b3 := Row("e", 2, Some("B"), "B B", 3, true);
      var a1 := Row("e", 1, None, "A", 0, false);
      RosterLines(ev, [b3, a1], fmt)[4..] ==
        ["<b>Going (1/20)</b>:", "✅ @B +3", "", "<b>Not going (1)</b>:", "❌ A"]
  {
    var b3 := Row("e", 2, Some("B"), "B B", 3, true);
    var a1 := Row("e", 1, None, "A", 0, false);
    var rows := [b3, a1];
    assert rows[..1] == [b3];
    assert [b3][..0] == [];
    assert GoingOf([b3]) == [b3];
    assert GoingOf(rows) == [b3];
    assert NotGoingOf([b3]) == [];
    assert NotGoingOf(rows) == [a1];
    RosterHeader(ev, rows, fmt);
    RosterGoingPart(ev, rows, fmt);
    RosterNotGoingPart(ev, rows, fmt);
    var lines := RosterLines(ev, rows, fmt);
    assert IntToString(1) == "1";
    assert IntToString(3) == "3";
    assert lines[4] == "<b>Going (1/20)</b>:";
    assert lines[5] == "✅ @B +3";
    assert lines[6] == "";
    assert lines[7] == "<b>Not going (1)</b>:";
    assert lines[8] == "❌ A";
  }
}
