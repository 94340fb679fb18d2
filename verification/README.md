# Events table and request validators, modelled in Dafny

This project models the two pieces of business logic in an event-registration
web app for an academic department:

- the **events table** page fragment (`routers/pages/partials.py`): the fixed
  table of class-period end times, the period start-hour label, the choice of
  which events a logged-in viewer sees (no deleted events, ordered by day, at
  most 20), and the per-event display record. That record holds the
  instructor and TA lists, whether the viewer has joined and in what role,
  whether the session is over, and whether it is full;
- the **request validators** (`backend/schemas.py`): the user role, the
  Gmail-only registration address, the phone pattern `^0\d{9}$`, the minimum
  password length, the event time window `0..2400` with the end after the
  start, and the non-negative head count. Each validator returns its input
  unchanged when it accepts it.

Everything is pure: datatypes for events, participation rows, users and
views, and functions over them. The clock is a parameter. `now` is an integer
count of microseconds and an event's day is an integer day number from the
same origin, so `datetime.combine(day, time(h, m))` becomes
`day * MicrosPerDay + h * MicrosPerHour + m * MicrosPerMinute`.

Files and modules:

| file | module | contents |
|---|---|---|
| common.dfy | Common | `Option`, `Result`, `Min` |
| text.dfy | Text | `str(int)` and its reading back, `endswith`, `join`, a splitter that undoes `join` |
| periods.dfy | Periods | end-time table, `format_period`, combining a day and a time |
| domain.dfy | Domain | `User`, `Participant`, `Event` and the role/status strings |
| event_view.dfy | EventViews | the per-event display record and its parts |
| events_table.dfy | EventsTable | event selection and the route's two branches |
| schemas.dfy | Schemas | the validators |
| scenarios.dfy | Scenarios | worked examples on concrete data |

Notes on the code as written:

- `format_period` has two branches, `7 + (p - 1)` and `13 + (p - 7)`. Both equal
  `p + 6`, so the `<= 6` split changes nothing (`Periods.PeriodStartHour`).
- The time range shows `format_period(end_period + 1)` as its end. That hour
  agrees with the end-time table only for periods 1 to 4. For later periods the
  label and the table disagree: period 5 ends at 14:00 in the table, but its
  range ends "12h00" (`Periods.EndLabelMatchesTableOnlyInMorning`). The model
  keeps both as written. The raw period numbers are also shown in
  `period_detail`.
- Teaching assistants are matched by the literal role `"ta"`. A row whose role
  is spelled `"teaching_assistant"` appears in neither list
  (`Scenarios.LongRoleNameNotListed`).
- `is_full` is `len(participants) >= max_user_joined` with no lower bound on the
  maximum. A maximum of 0 or less makes every event full.

## Model

| member | source | states |
|---|---|---|
| Periods.PeriodEndTime | routers/pages/partials.py:15-28 | periods 1-4 end at (p+7):00, 5-8 at (p+9):00, 9-12 at (p+9):25, any other period at the 23:59 fallback of line 79; every result is a valid `time` |
| Periods.EndTimesIncrease | routers/pages/partials.py:15-28 | among known periods, a later period ends strictly later in the day |
| Periods.FallbackIsLatest | routers/pages/partials.py:79 | no period ends later than the fallback used for unknown periods, so an unknown period is never treated as over early |
| Periods.PeriodStartHour | routers/pages/partials.py:33 | both branches of the start-hour formula give `p + 6` |
| Periods.StartHourIncreases | routers/pages/partials.py:33 | the start hour is strictly increasing in the period |
| Periods.FormatPeriod | routers/pages/partials.py:32-34 | the label ends in "h00" and its prefix reads back as the hour `p + 6` |
| Periods.FormatPeriodInjective | routers/pages/partials.py:32-34 | two periods get the same label exactly when they are the same period |
| Periods.EndLabelMatchesTableOnlyInMorning | routers/pages/partials.py:90 | the range's end label `format_period(end + 1)` names the table's end time of `end` exactly when `end` is in 1..4 |
| Periods.Combine | routers/pages/partials.py:80 | a day combined with a valid time of day lies inside that day, offset by the time's minutes |
| Periods.EventEndInstant | routers/pages/partials.py:79-80 | an event's end instant always lies within its own day, for any end period |
| Text.IntToString | routers/pages/partials.py:34 | the decimal text of an int is non-empty and starts with '-' exactly for negatives |
| Text.IntToStringInjective | routers/pages/partials.py:91 | two ints print alike exactly when they are equal |
| Text.Join | routers/pages/partials.py:95-96 | a join's length is the names' total length plus one separator between each pair |
| Text.JoinAppend | routers/pages/partials.py:95-96 | joining two non-empty lists gives the first join, one separator, then the second join, so a join is fixed for every list, commas in names included |
| Text.SplitJoin | routers/pages/partials.py:95-96 | splitting a join of comma-free names at the separator gives back the names |
| Text.EndsWithIffConcat | backend/schemas.py:43 | `s.endswith(x)` holds exactly when `s` is some prefix followed by `x` |
| EventViews.NamesWithRole | routers/pages/partials.py:66-67 | a name is listed exactly when some row has the role and a loaded user with that name; never more names than rows |
| EventViews.NamesWithRoleAppend | routers/pages/partials.py:66-67 | listing rows `a + b` lists `a`'s names then `b`'s, so input order is kept |
| EventViews.NamesWithRoleSingle | routers/pages/partials.py:66-67 | a single row contributes its user's name exactly when it has the role and a user |
| EventViews.OtherRoleNotListed | routers/pages/partials.py:66-67 | a row whose role is not the listed one adds nothing to the list, wherever it stands among the rows |
| EventViews.DisplayNames | routers/pages/partials.py:95-96 | no names display as "---"; one name displays as itself; a longer list displays as the display of all but the last name, ", ", then the last name; comma-free names are recovered by splitting the display at ", " |
| EventViews.FindViewer | routers/pages/partials.py:71 | finds the first row whose user id is the viewer's, or reports that no row has it |
| EventViews.EndedStaysEnded | routers/pages/partials.py:81 | once an event is over it stays over at every later instant |
| EventViews.EndedWithinItsDay | routers/pages/partials.py:79-81 | an event is never over before its day starts and always over once the next day starts |
| EventViews.FullStaysFull | routers/pages/partials.py:84-85 | for a fixed maximum, adding a row never turns a full event into a non-full one |
| EventViews.TimeRange | routers/pages/partials.py:90 | the time label is "`start+6`h00 - `end+7`h00": the end shows the start hour of the period after the last one, not the table's end time |
| EventViews.BuildView | routers/pages/partials.py:64-106 | the view passes through the event's fields; the time label is "`start+6`h00 - `end+7`h00" and the detail is the raw "(Tiết start-end)"; joined iff some row has the viewer's id, with role and attendance taken from the first such row and both absent otherwise; over iff `now` is strictly after the day combined with the end period's end time; full iff the row count reaches the maximum; instructors and TAs as displayed name lists |
| EventViews.FirstRowDecidesRole | routers/pages/partials.py:71-75 | when the viewer has several rows, the first one decides the role and attendance shown |
| EventsTable.NotDeleted | routers/pages/partials.py:55 | keeps every non-deleted event as often as it occurs and drops every deleted one |
| EventsTable.InsertByDay | routers/pages/partials.py:57 | inserting into a day-ordered list keeps it ordered and adds exactly that event |
| EventsTable.SortByDay | routers/pages/partials.py:57 | the result is ordered by day and is a permutation of the input |
| EventsTable.SelectEvents | routers/pages/partials.py:54-59 | no deleted event, ordered by day, exactly min(20, number of non-deleted events) entries, all taken from the input |
| EventsTable.CutOfSortedIsNotEarlier | routers/pages/partials.py:57-58 | cutting a day-ordered list after `n` entries leaves out only events on days no earlier than every entry kept |
| EventsTable.SelectEventsKeepsEarliest | routers/pages/partials.py:54-59 | every non-deleted event left off the page is on a day no earlier than every event kept |
| EventsTable.BuildViews | routers/pages/partials.py:64-106 | one view per selected event, in selection order |
| EventsTable.RenderEventsTable | routers/pages/partials.py:47-59 | no viewer: empty table and the login message; a viewer: no error, one view per selected event, at most 20, none deleted |
| Scenarios.EmptyEventBeforeItEnds | routers/pages/partials.py:64-106 | an empty event before period 1 ends is neither over nor full and shows "---" for both lists |
| Scenarios.EndIsStrict | routers/pages/partials.py:81 | at the end instant exactly the event is not over; one microsecond later it is |
| Scenarios.ViewerIsInstructor | routers/pages/partials.py:66-75 | the viewer's own instructor row makes them joined, as instructor, registered, and listed by name |
| Scenarios.OneSeatTaken | routers/pages/partials.py:84-85 | a single row fills a one-seat event |
| Scenarios.LongRoleNameNotListed | routers/pages/partials.py:67 | a row with role "teaching_assistant" is not listed as a TA |
| Scenarios.RangeLabels | routers/pages/partials.py:90-91 | periods 1-2 show "7h00 - 9h00" and "(Tiết 1-2)" |
| Schemas.ValidateRole | backend/schemas.py:20-24 | accepts exactly "user" and "admin", returning the value unchanged; refuses anything else |
| Schemas.WithUserDefaults | backend/schemas.py:15-16 | an omitted role becomes "user" and an omitted status becomes true; supplied values and every other field pass through unchanged |
| Schemas.DefaultRoleAccepted | backend/schemas.py:16-24 | with the role left out, a user body is accepted exactly when the phone and the password pass, and the role is never reported |
| Schemas.ValidateGmail | backend/schemas.py:40-45 | accepts exactly the addresses of the form local + "@gmail.com", unchanged |
| Schemas.ValidatePassword | backend/schemas.py:27 | accepts exactly the passwords of 6 or more characters, unchanged |
| Schemas.PhoneMatchesIffZeroThenNineDigits | backend/schemas.py:14 | a 10-character all-digit string starting with '0' is the same as '0' followed by nine digits |
| Schemas.MatchPhone | backend/schemas.py:14 | an executable left-to-right scan accepts exactly the strings `PhoneMatches` accepts, that is '0' followed by nine digits |
| Schemas.ValidatePhone | backend/schemas.py:14 | an absent phone is accepted; a present one exactly when it matches `PhoneMatches`, that is '0' followed by nine digits; accepted values unchanged |
| Schemas.ValidateUserCreate | backend/schemas.py:11-27 | accepted exactly when phone, role and password (length of 6 or more) all pass, returned as given (the address taken as already normalised); otherwise exactly the failing fields among phone, role and password are reported |
| Schemas.ValidateUserRegister | backend/schemas.py:36-45 | accepted exactly when the address, as handed to `validate_gmail`, ends in "@gmail.com" and the password has 6 or more characters; otherwise exactly the failing ones of those two fields are reported |
| Schemas.ValidateEvent | backend/schemas.py:48-62 | accepted exactly when both times are in 0..2400, the end is after the start (equal times refused) and the head count is non-negative; otherwise exactly the failing field bounds are reported, or, when all bounds pass and `to_time <= from_time`, only the order error |
| Schemas.WithDefaults | backend/schemas.py:53-54 | an omitted head count becomes 0 and an omitted status becomes "upcoming"; supplied values and every other field pass through unchanged |
| Schemas.DefaultStudentCountAccepted | backend/schemas.py:53 | with the default head count, only the time window decides acceptance |
| Schemas.ValidationIdempotent | backend/schemas.py:20-62 | validating an accepted value again accepts it unchanged, for the role, Gmail, phone, password, event, user-create and user-register validators |

## Left out

- Page rendering: the template, `TemplateResponse`, the request object and the `user` entry of the template context are presentation only.
- The database query: the filter, `ORDER BY day_start` and `LIMIT 20` are modelled over an in-memory list with the participants already loaded. The order of events on the same day is unspecified, as in SQL, so `EventsTable.SortByDay` promises only ordering and permutation.
- Authentication: the cookie lookup is replaced by the viewer's id, or `None` for an anonymous request.
- The clock: `datetime.now()` becomes the `now` parameter.
- Date formatting: `strftime("%d/%m/%Y")` is the opaque parameter `dayLabel`, and dates are day numbers.
- Time precision: `now` is counted in microseconds, the resolution of a naive `datetime`. Time zones are not modelled.
- The user table's model file is not part of this model. A user's `full_name` is taken to be a string. A missing name would make the join raise, and that case is not modelled.
- `routers/pages/partials.py:7` imports `EventRole` from `schemas`, but `backend/schemas.py` defines no such name. The model does not depend on it.
- Schemas.ValidatePhone: `\d` is taken as the ASCII digits 0-9. The framework's regular-expression engine may also accept other Unicode decimal digits.
- Schemas.ValidateUserCreate: `email` stands for the address after the `EmailStr` check and its normalisation (surrounding spaces stripped, domain lower-cased, a `Name <addr>` form reduced to `addr`). Those steps come from an external library and are not modelled. "Returned as given" therefore matches the program only for an address already in normalised form; the program returns `a@GMAIL.COM` as `a@gmail.com`.
- Schemas.ValidateUserRegister: `email` stands for the address after the `EmailStr` check and its normalisation (surrounding spaces stripped, domain lower-cased, a `Name <addr>` form reduced to `addr`). Those steps come from an external library and are not modelled. So `a@GMAIL.COM`, which the program accepts after normalisation, is refused by the model as given, and `@gmail.com`, which the `EmailStr` check refuses first, is accepted by the model.
- Type coercion of request bodies, such as a numeric string becoming an int, and the wording of the error messages, both the framework's built-in ones and the three custom ones of the schema's validators, are not modelled. Only the error kinds are.
- `backend/main.py` (app wiring, static files, router inclusion) and `backend/core/limiter.py` (rate limiter construction) are framework plumbing.
- The token and response schemas and `UserEventLink` hold data and contain no logic.
- Password hashing and e-mail verification are external services.
