/**
 * `scheduled_create_48h`: twice a week the bot creates the next game two days
 * ahead at 21:00 local time and schedules a reminder three hours before it.
 * Local time is a parameter: microseconds since 1970-01-01 00:00 local time.
 */
module Recurrence {
  import opened Options
  import opened Tables

  const Hour: int := 3_600_000_000
  const Day: int := 86_400_000_000

  /** How long before the game the reminder goes out. */
  const ReminderLead: int := 3 * Hour

  /** `datetime.weekday()`: Monday is 0, Sunday 6; 1970-01-01 was a Thursday. */
  function Weekday(t: int): (w: int)
    ensures 0 <= w < 7
  {
    (t / Day + 3) % 7
  }

  /** `replace(hour=21, minute=0, second=0, microsecond=0)`: 21:00 sharp on the same day. */
  function AtNinePm(t: int): (r: int)
    ensures r / Day == t / Day
    ensures r % Day == 21 * Hour
  {
    DaysLater(21 * Hour, t / Day);
    t / Day * Day + 21 * Hour
  }

  /** A game to create: when it starts, and when its reminder is due. */
  datatype Plan = Plan(eventTime: int, reminderTime: int)

  /**
   * The date rule: on a Wednesday the game is Friday (`4 - weekday` days on),
   * on a Saturday it is Monday (`(0 - weekday) % 7` days on, which Python and
   * Dafny both compute as 2); on any other day nothing is created.
   */
  function NextGame(nowLocal: int): (r: Option<Plan>)
    ensures r.Some? <==> Weekday(nowLocal) == 2 || Weekday(nowLocal) == 5
    ensures r.Some? ==> r.value.eventTime / Day == nowLocal / Day + 2 && r.value.eventTime % Day == 21 * Hour
    ensures r.Some? ==> r.value.reminderTime == r.value.eventTime - ReminderLead
  {
    var weekday := Weekday(nowLocal);
    if weekday == 2 || weekday == 5 then
      var target := if weekday == 2 then nowLocal + (4 - weekday) * Day else nowLocal + ((0 - weekday) % 7) * Day;
      assert (0 - 5) % 7 == 2;
      DaysLater(nowLocal, 2);
      var eventTime := AtNinePm(target);
      Some(Plan(eventTime, eventTime - ReminderLead))
    else
      None
  }

  lemma {:induction false} DaysLater(t: int, k: int)
    ensures (t + k * Day) / Day == t / Day + k
    ensures (t + k * Day) % Day == t % Day
  {
    var q, r := t / Day, t % Day;
    assert t + k * Day == (q + k) * Day + r;
  }

  /** The day after a given day is the next day of the week. */
  lemma WeekdayNextDay(t: int)
    ensures Weekday(t + Day) == (Weekday(t) + 1) % 7
  {
    DaysLater(t, 1);
  }

  /**
   * The rule creates a game only on Wednesdays and Saturdays; the game is two
   * calendar days later, on a Friday or a Monday, at exactly 21:00, after the
   * moment of the tick; the reminder is exactly three hours before the game.
   */
  lemma NextGameRule(nowLocal: int)
    ensures NextGame(nowLocal).Some? <==> Weekday(nowLocal) == 2 || Weekday(nowLocal) == 5
    ensures NextGame(nowLocal).Some? ==>
      var p := NextGame(nowLocal).value;
      p.eventTime / Day == nowLocal / Day + 2
      && p.eventTime % Day == 21 * Hour
      && Weekday(p.eventTime) == (if Weekday(nowLocal) == 2 then 4 else 0)
      && p.eventTime > nowLocal
      && p.reminderTime == p.eventTime - 3 * Hour
  {
    if NextGame(nowLocal).Some? {
      var p := NextGame(nowLocal).value;
      assert p.eventTime == (nowLocal / Day + 2) * Day + 21 * Hour;
    }
  }

  /** Wednesday 24 September 2025, 21:00: the game is Friday 26 September 2025, 21:00. */
  lemma WednesdayExample()
    ensures NextGame(20355 * Day + 21 * Hour) == Some(Plan(20357 * Day + 21 * Hour, 20357 * Day + 18 * Hour))
  {
    DaysLater(21 * Hour, 20355);
    DaysLater(21 * Hour, 20357);
  }

  /** Saturday 27 September 2025, 21:00: the game is Monday 29 September 2025, 21:00. */
  lemma SaturdayExample()
    ensures NextGame(20358 * Day + 21 * Hour) == Some(Plan(20360 * Day + 21 * Hour, 20360 * Day + 18 * Hour))
  {
    DaysLater(21 * Hour, 20358);
    DaysLater(21 * Hour, 20360);
  }

  /** Tuesday 23 September 2025: nothing is created. */
  lemma TuesdayExample()
    ensures NextGame(20354 * Day + 21 * Hour) == None
  {
    DaysLater(21 * Hour, 20354);
  }

  /** The one-shot reminder job: which event to re-render, and when. */
  datatype Reminder = Reminder(eventId: EventId, at: int)

  /**
   * One tick of the scheduler: when the rule fires, create the game at the
   * default place under the fresh id and return the reminder to schedule;
   * otherwise change nothing.
   */
  method ScheduledCreate(db: Store, nowLocal: int, freshId: EventId) returns (reminder: Option<Reminder>)
    requires db.Valid()
    requires freshId !in db.events
    modifies db
    ensures db.Valid()
    ensures db.players == old(db.players)
    ensures NextGame(nowLocal).None? ==> db.events == old(db.events) && reminder == None
    ensures NextGame(nowLocal).Some? ==>
      var p := NextGame(nowLocal).value;
      db.events == old(db.events)[freshId := Event(p.eventTime, DefaultPlace, true)]
      && reminder == Some(Reminder(freshId, p.eventTime - 3 * Hour))
  {
    var weekday := Weekday(nowLocal);
    var target: int;
    if weekday == 2 {
      target := nowLocal + (4 - weekday) * Day;
    } else if weekday == 5 {
      target := nowLocal + ((0 - weekday) % 7) * Day;
    } else {
      return None;
    }
    var eventTime := AtNinePm(target);
    var eventId := db.CreateEvent(freshId, eventTime, DefaultPlace);
    reminder := Some(Reminder(eventId, eventTime - ReminderLead));
  }
}
