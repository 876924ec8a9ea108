/**
 * The inline keyboard under every roster and the handler for its buttons.
 * Each button carries `action_eventid_arg`; the handler splits on `_` and
 * turns the pieces into an answer for the players table.
 */
module Callbacks {
  import opened Options
  import opened Text
  import opened Tables

  /** An inline button: its label and the callback data it sends back. */
  datatype Button = Button(text: string, data: string)

  /**
   * `join_keyboard`: Going, Not going, and +1 / +2 / +3 guests, on three rows.
   * For an id without `_` (as the timestamp ids are), every button reads back
   * as an answer for that same event.
   */
  function JoinKeyboard(id: EventId): (kb: seq<seq<Button>>)
    ensures |kb| == 3 && |kb[0]| == 1 && |kb[1]| == 1 && |kb[2]| == 3
    ensures '_' !in id ==> ParseCallback(kb[0][0].data) == Join(id, true)
    ensures '_' !in id ==> ParseCallback(kb[1][0].data) == Join(id, false)
    ensures '_' !in id ==> ParseCallback(kb[2][0].data) == Extra(id, 1)
    ensures '_' !in id ==> ParseCallback(kb[2][1].data) == Extra(id, 2)
    ensures '_' !in id ==> ParseCallback(kb[2][2].data) == Extra(id, 3)
  {
    var kb := [
      [Button("✅ Going", "join_" + id + "_" + "yes")],
      [Button("❌ Not going", "join_" + id + "_" + "no")],
      [
        Button("➕1", "extra_" + id + "_1"),
        Button("➕2", "extra_" + id + "_2"),
        Button("➕3", "extra_" + id + "_3")
      ]
    ];
    if '_' in id then kb
    else
      JoinButtonsRoundTrip(id);
      ExtraButtonsRoundTrip(id);
      kb
  }

  /** What a button press asks for. */
  datatype Action =
    | Join(eventId: EventId, going: bool)   // `join`: going or not, no guests
    | Extra(eventId: EventId, count: int)   // `extra`: going with `count` guests
    | Ignore                                // fewer than two fields, or an unknown action
    | Crash                                 // `data[2]` missing, or `int()` rejects it

  /** The callback parse: split on `_`, then dispatch on the first field. */
  function ParseCallback(data: string): (r: Action)
    ensures var f := Split(data, '_'); (r.Join? || r.Extra?) ==> |f| >= 3 && r.eventId == f[1]
    ensures var f := Split(data, '_'); r.Join? ==> f[0] == "join" && (r.going <==> f[2] == "yes")
    ensures var f := Split(data, '_'); r.Extra? ==> f[0] == "extra" && ParseInt(f[2]) == Some(r.count)
    ensures var f := Split(data, '_'); r == Ignore <==> |f| < 2 || (f[0] != "join" && f[0] != "extra")
  {
    var fields := Split(data, '_');
    if |fields| < 2 then Ignore
    else if fields[0] == "join" then
      (if |fields| < 3 then Crash else Join(fields[1], fields[2] == "yes"))
    else if fields[0] == "extra" then
      (if |fields| < 3 then Crash
       else match ParseInt(fields[2])
         case Some(n) => Extra(fields[1], n)
         case None => Crash)
    else Ignore
  }

  /** Three fields without separators, joined with `_`, split back into the same three. */
  lemma SplitThree(a: string, b: string, c: string)
    requires '_' !in a && '_' !in b && '_' !in c
    ensures Split(a + "_" + b + "_" + c, '_') == [a, b, c]
  {
    assert Text.Join([c], '_') == c;
    assert [a, b, c][1..] == [b, c] && [b, c][1..] == [c];
    assert Text.Join([a, b, c], '_') == a + "_" + b + "_" + c;
    SplitJoin([a, b, c], '_');
  }

  /** A `join` button press reads back as its event and answer, whatever else the arg says. */
  lemma JoinRoundTrip(id: EventId, arg: string)
    requires '_' !in id && '_' !in arg
    ensures ParseCallback("join_" + id + "_" + arg) == Join(id, arg == "yes")
  {
    assert "join_" + id + "_" + arg == "join" + "_" + id + "_" + arg;
    SplitThree("join", id, arg);
  }

  /** `str(n)` never holds the separator. */
  lemma IntToStringHasNoSeparator(n: int)
    ensures '_' !in IntToString(n)
  {
    IntToStringShape(n);
    var s := IntToString(n);
    forall i | 0 <= i < |s| ensures s[i] != '_' {
      assert IsDigit(s[i]) || s[i] == '-';
    }
  }

  /** An `extra` button press reads back as its event and guest count. */
  lemma ExtraRoundTrip(id: EventId, n: int)
    requires '_' !in id
    ensures ParseCallback("extra_" + id + "_" + IntToString(n)) == Extra(id, n)
  {
    var arg := IntToString(n);
    IntToStringHasNoSeparator(n);
    IntRoundTrip(n);
    assert "extra_" + id + "_" + arg == "extra" + "_" + id + "_" + arg;
    SplitThree("extra", id, arg);
  }

  /** The Going and Not going data read back as a join with that answer. */
  lemma JoinButtonsRoundTrip(id: EventId)
    requires '_' !in id
    ensures ParseCallback("join_" + id + "_" + "yes") == Join(id, true)
    ensures ParseCallback("join_" + id + "_" + "no") == Join(id, false)
  {
    JoinRoundTrip(id, "yes");
    JoinRoundTrip(id, "no");
    assert "no" != "yes" by { assert "no"[0] != "yes"[0]; }
  }

  /** The guest data write the count as one digit, which reads back as going with that many guests. */
  lemma ExtraButtonsRoundTrip(id: EventId)
    requires '_' !in id
    ensures ParseCallback("extra_" + id + "_1") == Extra(id, 1)
    ensures ParseCallback("extra_" + id + "_2") == Extra(id, 2)
    ensures ParseCallback("extra_" + id + "_3") == Extra(id, 3)
  {
    GuestButtonRoundTrip(id, 1);
    GuestButtonRoundTrip(id, 2);
    GuestButtonRoundTrip(id, 3);
    assert "extra_" + id + "_1" == "extra_" + id + "_" + [DigitChar(1)];
    assert "extra_" + id + "_2" == "extra_" + id + "_" + [DigitChar(2)];
    assert "extra_" + id + "_3" == "extra_" + id + "_" + [DigitChar(3)];
  }

  /** A one-digit guest count written after `extra_<id>_` reads back as that count. */
  lemma GuestButtonRoundTrip(id: EventId, n: nat)
    requires '_' !in id && 1 <= n <= 9
    ensures ParseCallback("extra_" + id + "_" + [DigitChar(n)]) == Extra(id, n)
  {
    ExtraRoundTrip(id, n);
    assert IntToString(n) == [DigitChar(n)];
  }

  /** A callback string with fewer than three fields never records an answer. */
  lemma ShortDataRecordsNothing(data: string)
    requires |Split(data, '_')| < 3
    ensures !ParseCallback(data).Join? && !ParseCallback(data).Extra?
  {
  }

  function OrEmpty(s: Option<string>): string
  {
    if s.Some? then s.value else ""
  }

  /**
   * `f"{first_name or ''} {last_name or ''}".strip()`: no whitespace at either
   * end, and nothing at all when neither name is given.
   */
  function FullName(firstName: Option<string>, lastName: Option<string>): (r: string)
    ensures r == "" || (!IsSpace(r[0]) && !IsSpace(r[|r| - 1]))
    ensures OrEmpty(firstName) == "" && OrEmpty(lastName) == "" ==> r == ""
  {
    Strip(OrEmpty(firstName) + " " + OrEmpty(lastName))
  }

  /** A name that neither starts nor ends with whitespace. */
  predicate Trimmed(s: string)
  {
    |s| >= 1 && !IsSpace(s[0]) && !IsSpace(s[|s| - 1])
  }

  /** Both names given: they are joined by one space. */
  lemma FullNameOfBoth(first: string, last: string)
    requires Trimmed(first) && Trimmed(last)
    ensures FullName(Some(first), Some(last)) == first + " " + last
  {
    var s := first + " " + last;
    assert s[0] == first[0] && s[|s| - 1] == last[|last| - 1];
    var i := FirstNonSpace(s, 0);
    assert i == 0;
    var j := EndNonSpace(s, i, |s|);
    assert j == |s|;
    assert s[i..j] == s;
  }

  /** Only the first name given: the trailing space is stripped away. */
  lemma FullNameOfFirst(first: string)
    requires Trimmed(first)
    ensures FullName(Some(first), None) == first
  {
    var s := first + " " + "";
    assert s[0] == first[0] && s[|s| - 1] == ' ' && s[|s| - 2] == first[|first| - 1];
    var i := FirstNonSpace(s, 0);
    assert i == 0;
    var j := EndNonSpace(s, i, |s|);
    assert j == |s| - 1;
    assert s[i..j] == first;
  }

  /** What the handler says back: a toast (possibly empty), or an exception escapes. */
  datatype Reply = Answered(text: Option<string>) | Raised

  /**
   * `callbacks`: parse the button data and, for `join` and `extra`, replace
   * the user's answer for the event, then acknowledge it.
   */
  method HandleCallback(db: Store, data: string, userId: UserId, username: Option<string>,
                        firstName: Option<string>, lastName: Option<string>) returns (reply: Reply)
    requires db.Valid()
    modifies db
    ensures db.Valid() && db.events == old(db.events)
    ensures match ParseCallback(data)
      case Join(e, going) =>
        db.players == Upsert(old(db.players), Row(e, userId, username, FullName(firstName, lastName), 0, going))
        && reply == Answered(Some("Updated!"))
      case Extra(e, n) =>
        db.players == Upsert(old(db.players), Row(e, userId, username, FullName(firstName, lastName), n, true))
        && reply == Answered(Some("Added +" + IntToString(n)))
      case Ignore => db.players == old(db.players) && reply == Answered(None)
      case Crash => db.players == old(db.players) && reply == Raised
  {
    var fields := Split(data, '_');
    if |fields| < 2 {
      return Answered(None);
    }
    var action, eventId := fields[0], fields[1];
    var fullName := FullName(firstName, lastName);
    if action == "join" {
      if |fields| < 3 {
        return Raised;
      }
      var going := fields[2] == "yes";
      db.UpsertParticipation(eventId, userId, username, fullName, going, 0);
      reply := Answered(Some("Updated!"));
    } else if action == "extra" {
      if |fields| < 3 {
        return Raised;
      }
      var parsed := ParseInt(fields[2]);
      if parsed.None? {
        return Raised;
      }
      var extra := parsed.value;
      db.UpsertParticipation(eventId, userId, username, fullName, true, extra);
      reply := Answered(Some("Added +" + IntToString(extra)));
    } else {
      reply := Answered(None);
    }
  }
}
