# Football meetup bot: event and RSVP bookkeeping in Dafny

This project models the bookkeeping core of a Telegram bot that organises
football games. It covers:

- the `events` and `players` tables, their writes (`create_event`,
  `delete_event`, `upsert_participation`) and their queries (`get_event`,
  `list_players`, `get_upcoming_events`, `get_nearest_event`);
- the roster text the bot posts (`render_event`);
- the weekly rule that creates the next game and its reminder
  (`scheduled_create_48h`);
- the inline keyboard and the button handler (`join_keyboard`, `callbacks`).

Modules, one per component:

- `Tables` (tables.dfy): the two tables as a `Store` class. `events` is a
  map from id to (time, place, active). `players` is a sequence of rows in
  insertion order, which stands for `ORDER BY joined_at`. The class invariant
  `Valid()` says there is at most one row per (event, user) and every event
  is active. The SELECT and DELETE statements are functions over the table
  contents, with lemmas about them.
- `Upcoming` (upcoming.dfy): the upcoming-events query as a method. It
  walks the map, inserts each selected event into a time-sorted list, then
  applies `LIMIT`.
- `Roster` (roster.dfy): `render_event` as a method with the source's
  loops. It is proved equal to the specification function `RosterLines`,
  and lemmas describe that function line by line.
- `Recurrence` (recurrence.dfy): the Wednesday/Saturday date rule, the
  21:00 clamp and the three-hour reminder.
- `Callbacks` (callbacks.dfy): button data, its parse and the handler that
  records the answer.
- `Text` (text.dfy): Python's `split`, `join`, `str(int)`, `int(str)` and
  `strip` as used above. `Options` (options.dfy) holds the optional type.

Times are integers: local wall-clock microseconds since 1970-01-01 00:00,
the resolution of Python's `datetime`. The local "now", the wall-clock-based
event id and the `strftime` formatter are parameters.

The model follows the code in these points:

- Deletion is a hard delete of the event row and all its player rows. It is
  not a soft delete that clears `is_active`.
- Recording an answer does not check that the event exists. The players
  table has no enforced foreign key.
- A negative guest count is not rejected.
- There is no by-id update of place or time in this source file.

## Model

| member | source | states |
|---|---|---|
| Tables.Store.constructor | bot.py:44-68 | on a fresh database file both tables start empty, and the invariant holds |
| Tables.Store.CreateEvent | bot.py:73-81 | the new id maps to the given time and place with `is_active` true; every other id and the players table are unchanged; the invariant is kept |
| Tables.Store.DeleteEvent | bot.py:83-87 | afterwards `get_event` gives None for the id and it lists no players; every other event and its player listing is unchanged; the invariant is kept |
| Tables.Store.UpsertParticipation | bot.py:123-135 | the user has exactly one row for the event, carrying the new values, and it is last in the event's listing; every other (event, user) keeps its rows; events are unchanged; the invariant is kept |
| Tables.GetEvent | bot.py:89-102 | None exactly when the id has no row; otherwise the stored event, whether active or not |
| Tables.ListPlayers | bot.py:137-144 | every listed row belongs to the requested event and comes from the table, and every row of the event is listed |
| Tables.ListPlayersAppend | bot.py:137-144 | listing distributes over concatenation, so the listing keeps table order |
| Tables.ListPlayersAll | bot.py:137-144 | a table holding only rows of the event lists as itself, in order |
| Tables.RowsOf | bot.py:126-129 | every selected row has the requested event and user and comes from the table, and every such row of the table is selected |
| Tables.RowsOfAppend | bot.py:126-129 | selecting a pair's rows distributes over concatenation |
| Tables.DropEvent | bot.py:85 | no remaining row belongs to the event, every remaining row comes from the table, and every row of another event remains |
| Tables.DropUser | bot.py:126-129 | no remaining row has the (event, user) pair, every remaining row comes from the table, and every row of another pair remains |
| Tables.DropUserAppend | bot.py:126-129 | the per-pair delete distributes over concatenation |
| Tables.DropUserAbsent | bot.py:126-129 | deleting a pair that has no rows changes nothing |
| Tables.DropEventListPlayers | bot.py:85 | after the delete the event lists nothing, and every other event lists exactly what it listed before |
| Tables.DropUserRowsOf | bot.py:126-129 | after the delete the user has no rows for the event, and every other pair keeps its rows |
| Tables.DropUserOtherEvent | bot.py:126-129 | deleting one user's rows leaves every other event's listing unchanged |
| Tables.DropUserSameEvent | bot.py:126-129 | deleting a user's rows then listing the event is the same as listing then deleting |
| Tables.DropUserTwice | bot.py:126-129 | the per-user delete is idempotent |
| Tables.DropUserKeepsUnique | bot.py:126-129 | the per-pair delete keeps at most one row per (event, user) |
| Tables.DropEventKeepsUnique | bot.py:85 | the per-event delete keeps at most one row per (event, user) |
| Tables.Upsert | bot.py:123-135 | the new row comes last; every row of the result is the new row or comes from the table; every row of another pair remains; the new row is the pair's only row |
| Tables.UpsertLeavesOneRow | bot.py:123-135 | after the upsert the user's rows for the event are exactly the new row |
| Tables.UpsertKeepsOthers | bot.py:123-135 | every other (event, user) pair keeps exactly its rows |
| Tables.UpsertKeepsAllOthers | bot.py:123-135 | the same for all other pairs at once |
| Tables.UpsertFirstAnswer | bot.py:123-135 | a user's first answer for an event is appended at the end and nothing else moves |
| Tables.UpsertSecondAnswer | bot.py:123-135 | when the first row is the same user's earlier answer and no other row is theirs, the upsert drops it and appends the new answer behind the rest |
| Tables.UpsertListPlayers | bot.py:123-144 | in listing order, the event's other rows keep their order and the new row comes last; other events list as before |
| Tables.UpsertSupersedes | bot.py:123-135 | a second answer from the same user for the same event replaces the first instead of adding to it: the table equals the one with only the second upsert; with equal rows this is idempotence under retry |
| Tables.UpsertKeepsUnique | bot.py:123-135 | the upsert keeps at most one row per (event, user) |
| Upcoming.GetUpcomingEvents | bot.py:104-117 | returns only events that are in the table with their stored row, active and at or after now; sorted by non-decreasing time; no id twice; length is min(limit, number of such events), or all of them for a negative SQLite limit; no selected event left out is earlier than a returned one |
| Upcoming.GetNearestEvent | bot.py:119-121 | None exactly when no active event is at or after now; otherwise a stored, active, upcoming event no later than any other such event |
| Upcoming.InsertPos | bot.py:110 | the insertion point in a time-sorted list: every entry before it is not later than the new time and every entry after it is later |
| Upcoming.Limited | bot.py:110 | `LIMIT` never returns more rows than there are, nor more than a non-negative limit, and returns fewer than there are only when the limit applies |
| Upcoming.InsertKeepsOrder | bot.py:110 | inserting a new selected event at its position keeps the list sorted, free of repeated ids and selected, and adds exactly its id |
| Upcoming.TruncateKeepsEarliest | bot.py:110 | cutting the complete sorted selection keeps it sorted, and nothing left out is earlier than anything kept |
| Upcoming.DistinctIdsCard | bot.py:107-111 | a list without repeated ids has as many distinct ids as entries, so the result length counts selected events |
| Roster.RenderEvent | bot.py:166-200 | "Event not found." for an unknown id; otherwise the roster lines of the event's player listing, joined with newlines |
| Roster.BuildLines | bot.py:175-198 | the lines the source appends are exactly `RosterLines` |
| Roster.GoingLines | bot.py:182-188 | the first loop produces exactly the going section |
| Roster.DeclinedLines | bot.py:193-198 | the second loop produces exactly the declined section |
| Roster.RosterLines | bot.py:175-198 | seven fixed lines plus the two sections, each at least one line long; the first line is the title and line 3 is blank |
| Roster.Header | bot.py:176-180 | the header has five lines |
| Roster.GoingSection | bot.py:182-188 | the sentinel alone when nobody goes, otherwise one line per going row |
| Roster.NotGoingSection | bot.py:193-198 | the sentinel alone when nobody declined, otherwise one line per declining row |
| Roster.LinesOf | bot.py:183-186 | one line per row |
| Roster.GoingLine | bot.py:184-186 | a going line starts with "✅ " and has at least one more character, the name |
| Roster.NotGoingLine | bot.py:195-196 | a declined line starts with "❌ " and has at least one more character, the name |
| Roster.DisplayName | bot.py:184 | a roster name is never empty |
| Roster.ExtraSuffix | bot.py:185 | the guests mark is empty exactly when the count is 0 |
| Roster.ExtraSuffixReadsBack | bot.py:185 | a non-empty guests mark is " +" followed by the decimal count, which parses back to the count |
| Roster.GoingOf | bot.py:172 | the going list is never longer than the listing |
| Roster.NotGoingOf | bot.py:173 | the declined list is never longer than the listing |
| Roster.GoingOfSelects | bot.py:172-173 | a row is in the going list exactly when it is listed and going, and in the declined list exactly when it is listed and not going |
| Roster.GoingOfAppend | bot.py:172 | selecting the going rows distributes over concatenation, so it keeps the listing order |
| Roster.NotGoingOfAppend | bot.py:173 | selecting the declined rows distributes over concatenation, so it keeps the listing order |
| Roster.GoingOfSingle | bot.py:172-173 | a single row lands in the list of its kind only |
| Roster.Partition | bot.py:172-173 | the going and not-going lists split the rows: their sizes add up to the row count, together they hold every row once, and each holds only rows of its kind |
| Roster.GoingCountIgnoresExtra | bot.py:172-180 | both head counts depend only on the going flags, so names and guest counts do not change them |
| Roster.LinesOfAt | bot.py:183-186 | one line per row, the i-th line rendering the i-th row |
| Roster.GoingSectionAt | bot.py:182-188 | the going section is "Nobody yet 👀" exactly when nobody goes; otherwise one "✅" line per going row in order |
| Roster.NotGoingSectionAt | bot.py:193-198 | the declined section is "Nobody declined." exactly when nobody declined; otherwise one "❌" line per such row in order |
| Roster.RosterHeader | bot.py:176-180 | the header is the title, the formatted time, the place, a blank line, and "Going (n/20)" with n the number of going rows |
| Roster.RosterGoingPart | bot.py:180-188 | below the header: one line per going row with name and guests mark, or the sentinel exactly when there is none |
| Roster.RosterNotGoingHeader | bot.py:190-191 | below the going section: a blank line, then "Not going (k)" with k the number of declining rows |
| Roster.RosterNotGoingPart | bot.py:193-198 | after that header the roster ends with the declined section, whose first line is the sentinel exactly when nobody declined |
| Roster.RosterDeclinedLines | bot.py:193-198 | after that header, one "❌" line per declining row, in order |
| Roster.ThreeAnswersTable | bot.py:123-144 | for any rows of one event: A answers, B answers, then A answers again; the listing is B's row followed by A's latest row |
| Roster.ThreeAnswersRoster | bot.py:166-200 | for that listing the roster reads "Going (1/20)", "✅ @B +3", "", "Not going (1)", "❌ A" |
| Recurrence.Weekday | bot.py:301 | the weekday is between 0 (Monday) and 6 (Sunday) |
| Recurrence.WeekdayNextDay | bot.py:301 | a day later is the next weekday, Sunday wrapping to Monday |
| Recurrence.AtNinePm | bot.py:310 | the same calendar day at exactly 21:00:00.000 |
| Recurrence.NextGame | bot.py:300-319 | a game is planned exactly on weekday 2 or 5; it is two calendar days later at 21:00; the reminder is 3 hours before it |
| Recurrence.DaysLater | bot.py:304-306 | adding k days moves the day number by k and keeps the time of day |
| Recurrence.NextGameRule | bot.py:299-310 | a game is planned exactly on Wednesdays and Saturdays; it is two calendar days later, on a Friday or a Monday, at exactly 21:00, after the tick; the reminder is exactly 3 hours before it |
| Recurrence.WednesdayExample | bot.py:303-304 | Wednesday 24 Sep 2025 plans Friday 26 Sep 2025 21:00, with the reminder at 18:00 |
| Recurrence.SaturdayExample | bot.py:305-306 | Saturday 27 Sep 2025 plans Monday 29 Sep 2025 21:00, with the reminder at 18:00 |
| Recurrence.TuesdayExample | bot.py:307-308 | Tuesday plans nothing |
| Recurrence.ScheduledCreate | bot.py:299-320 | when the rule fires, creates the planned event at the default place under the fresh id and returns a reminder for that id 3 hours before; otherwise changes nothing; players unchanged |
| Callbacks.JoinKeyboard | bot.py:149-158 | three rows of one, one and three buttons; for an id without `_`, Going reads back as going, Not going as not going, and ➕1, ➕2, ➕3 as going with 1, 2, 3 guests, all for that event |
| Callbacks.ParseCallback | bot.py:270-293 | an answer needs at least three fields and is for the event in the second field; a join goes exactly when the third field is "yes"; an extra carries the third field read as an integer; the press is ignored exactly when there are fewer than two fields or the action is neither join nor extra |
| Callbacks.SplitThree | bot.py:271 | three fields without `_`, joined with `_`, split back into the same three |
| Callbacks.JoinRoundTrip | bot.py:271-283 | for an id and argument without `_`, `join_<id>_<arg>` parses to a join for that id, going exactly when the argument is "yes" |
| Callbacks.IntToStringHasNoSeparator | bot.py:154-156 | a decimal guest count never contains `_` |
| Callbacks.ExtraRoundTrip | bot.py:287-289 | for an id without `_`, `extra_<id>_<n>` parses to going with exactly n guests |
| Callbacks.JoinButtonsRoundTrip | bot.py:151-152 | the Going and Not going data parse back to a join with going true and false |
| Callbacks.ExtraButtonsRoundTrip | bot.py:153-157 | the +1, +2 and +3 data parse back to going with 1, 2 and 3 guests |
| Callbacks.GuestButtonRoundTrip | bot.py:154-156 | a one-digit guest count after `extra_<id>_` parses back to that count |
| Callbacks.ShortDataRecordsNothing | bot.py:270-276 | data with fewer than three fields never records an answer |
| Callbacks.FullName | bot.py:278 | the full name neither starts nor ends with whitespace, and is empty when neither name is given |
| Callbacks.FullNameOfBoth | bot.py:278 | two names without surrounding whitespace give "first last" |
| Callbacks.FullNameOfFirst | bot.py:278 | a first name alone gives exactly that name |
| Callbacks.HandleCallback | bot.py:268-294 | join upserts (going = arg is "yes", 0 guests) and says "Updated!"; extra upserts (going, n guests) and says "Added +n"; an unknown action or a single field answers silently; a missing third field or a non-integer count raises with the tables unchanged |
| Text.IndexOf | bot.py:271 | the first occurrence of the separator: it is there, and there is none before it |
| Text.Split | bot.py:271 | at least one field, no field holds the separator, and joining the fields gives the string back |
| Text.Join | bot.py:200 | the result starts with the first part, and with two or more parts the separator follows it |
| Text.SplitJoin | bot.py:271 | splitting what was joined gives the parts back when no part holds the separator |
| Text.DigitChar | bot.py:185 | the character is a digit whose value is the given number |
| Text.NatToDigits | bot.py:185 | at least one digit, the first a digit, and the first is '0' only for 0, so there is no leading zero |
| Text.IntToString | bot.py:185 | never empty; starts with '-' exactly for negative numbers and with '0' exactly for 0 |
| Text.NatToDigitsAreDigits | bot.py:185 | `str` of a non-negative number is a non-empty run of digits |
| Text.DigitsRoundTrip | bot.py:288 | the digits of n read back as n |
| Text.DigitsAll | bot.py:288 | a run of digits holds only digits |
| Text.IntToStringShape | bot.py:185 | `str(n)` is digits, after a minus sign when n is negative |
| Text.NotDigitsFromSign | bot.py:288 | a string starting with a non-digit is not a run of digits |
| Text.ParseInt | bot.py:288 | a result needs non-empty text; a run of digits reads as its value; a negative result needs a leading '-' |
| Text.IntRoundTrip | bot.py:288 | `int(str(n)) == n` |
| Text.FirstNonSpace | bot.py:278 | the position after the leading whitespace: everything skipped is whitespace and the character there is not |
| Text.EndNonSpace | bot.py:278 | the position where the trailing whitespace starts: everything after it is whitespace and the character before it is not |
| Text.Strip | bot.py:278 | the result is a contiguous middle part of the input; everything cut off is whitespace; it neither starts nor ends with whitespace |

## Left out

- Telegram I/O is not modelled: `message.answer`, `bot.send_message`, `edit_text` and `callback.answer`. Replies are returned as values instead. The static-text commands `cmd_start`, `cmd_myid` and `cmd_chatid` hold no logic.
- `cmd_events`, `cmd_addevent` and `cmd_delevent` are not modelled. They hold the admin-list check, `strptime` parsing and message loops around the modelled operations.
- The webhook server, `main`, `on_startup` and the SQLite connection handling are left out as process and network plumbing.
- Tables.Store.constructor: models `init_db` on a fresh database file only. On an existing file `CREATE TABLE IF NOT EXISTS` keeps the stored rows, and the model does not cover that case.
- Asynchronous interleaving is left out, because the model is sequential. This includes the window between the delete and the insert of an upsert.
- APScheduler registration (the cron job and `add_job`) and `send_reminder` are left out. `ScheduledCreate` returns the reminder as a value.
- Wall-clock reads are parameters: `now` for queries and the scheduler, and the fresh event id. `CreateEvent` and `ScheduledCreate` require that id to be unused. Ids built from `str(timestamp)` hold only digits and '.', so they meet the "no `_`" precondition of the callback round-trip lemmas.
- `fmt_dt` (`strftime`) is a function parameter. Its locale-dependent output is not modelled.
- Times are integers, not ISO strings compared as text in SQL. `joined_at` order is insertion order: rows written in the same second are not reordered.
- Upcoming.GetUpcomingEvents: among events at the same time, the order is whatever the map walk produces. SQL leaves that order unspecified too.
- Text.ParseInt: accepts only an optional sign and ASCII digits. Python's `int()` also strips surrounding whitespace and accepts underscores between digits and non-ASCII digits. A callback field cannot hold an underscore.
- Text.Strip: removes ASCII whitespace only. Python's `str.strip()` also removes other Unicode whitespace.
- The HTML parse mode is left out, so markup in names and places is kept as plain text.
- Roster.GoingOf: its own contract only bounds the length. Membership is stated by `GoingOfSelects`, and order by `GoingOfAppend` with `GoingOfSingle`. The same holds for `Roster.NotGoingOf`.
- Roster.DisplayName: the contract says only that the name is never empty. The choice between "@username", the full name and "No name" is fixed by the definition, and the scenario lemmas check it.
