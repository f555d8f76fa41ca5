# Event calendar: a verified model of the room-booking table

This project models `EventCalendar`, the room-booking table of the event
scheduler, in Dafny. The table is a grid of days by rooms:

- the rows are `num_days` consecutive midnights, starting at the midnight of
  the given start;
- the columns are the rooms, in the order given;
- every cell holds a list of events `{event_name, start_time, end_time}` and
  starts out empty.

`add_event` files an event under the cell of its start's day in its room.
It refuses the event when its half-open interval `[start, start + duration)`
clashes with an event already in that cell; otherwise it appends it.
`remove_event` drops every event with a given name from one exact (date,
room) cell. `list_events_on_date` returns one date's row.

Files:

- `events.dfy`, module `Events`: times, events, the clash test, the cell
  invariant (pairwise disjoint events), day keys, the row index and the name
  filter, with the lemmas about them.
- `event_calendar.dfy`, module `Calendar`: the class `EventCalendar`. It keeps
  the rooms and the row labels as constants and the table as a mutable map
  from (midnight, room) to a sequence of events. `Valid()` says that the map
  holds exactly the grid's cells and that every cell is pairwise disjoint.
  Every method keeps `Valid()` and states the whole new table.
- `scenarios.dfy`, module `Scenarios`: booking stories proved from the class's
  contracts alone. They include the three stories of the test suite.

Conventions of the model:

- A time is an integer number of minutes. Every multiple of 1440 is a
  midnight. The midnight of `t` is `t - t % 1440`, which is the floor that
  `replace(hour=0, minute=0, second=0, microsecond=0)` computes.
- A duration is an integer number of minutes. Zero and negative durations
  are accepted, as in the source; the bound pandas puts on timestamps and
  durations is not modelled (see "## Left out").
- A Python exception becomes a returned `Outcome`. The `ValueError`
  "Event time overlap" is `EventTimeOverlap`. The `KeyError` of a `.at` or
  `.loc` lookup whose row or column does not exist is `KeyNotFound` (or `None`
  for the row query). A failed call leaves the table unchanged, as in the
  source, where the append comes after the scan.

A missing (day, room) cell fails with a `KeyError`. The clash test sees only
the start day's cell of one room.

## Model

| member | source | states |
|---|---|---|
| Events.Overlaps | event_calendar.py:42 | the clash test holds exactly when each event starts before the other ends, so the half-open intervals intersect; events that only touch do not clash |
| Events.Fits | event_calendar.py:41-43 | the scan lets an event through exactly when no event of the cell clashes with it |
| Events.Days | event_calendar.py:14 | the row index has `n` labels, the first is the origin, and each is one day after the one before |
| Events.DayKey | event_calendar.py:39 | the key of a time is a midnight at or before it and less than a day before it |
| Events.DayKeyUnique | event_calendar.py:39 | that midnight is the only one within the day before the time, so the key is the time's calendar day |
| Events.DaysAreConsecutiveMidnights | event_calendar.py:13-14 | the row labels start at the truncated start, are all midnights and are one day apart |
| Events.DayKeyInDays | event_calendar.py:39-40 | the start's day has a row exactly when the start lies in `[origin, origin + num_days days)` |
| Events.OnlyMidnightsAreDays | event_calendar.py:56 | a time that is not a midnight labels no row, so an exact-date lookup with it fails |
| Events.OverlapsIffSharedMinute | event_calendar.py:42 | for events of positive length, the clash test holds exactly when some minute lies in both half-open intervals |
| Events.OverlapsSymmetric | event_calendar.py:42 | the clash test gives the same answer whichever of the two events is the booked one |
| Events.TouchingDoNotOverlap | event_calendar.py:42 | an event that ends when the other starts does not clash with it, either way round |
| Events.AppendKeepsDisjoint | event_calendar.py:41-44 | appending an event that clashes with no event of a disjoint cell keeps the cell disjoint |
| Events.FilterOut | event_calendar.py:57 | the filtered cell is no longer than the cell and holds exactly the cell's events whose name differs |
| Events.FilterOutAppend | event_calendar.py:57 | filtering distributes over concatenation, so kept events stay in their original order |
| Events.FilterOutNoMatch | event_calendar.py:57 | filtering a name leaves the cell unchanged if and only if no event of the cell carries that name |
| Events.FilterOutIdempotent | event_calendar.py:57 | filtering the same name twice is the same as filtering it once |
| Events.PrependKeepsDisjoint | event_calendar.py:57 | an event kept in front of a disjoint rest that clashes with none of it leaves the cell disjoint |
| Events.FilterOutKeepsDisjoint | event_calendar.py:57 | filtering a pairwise-disjoint cell leaves it pairwise disjoint |
| Events.RemoveUndoesAppend | event_calendar.py:44-57 | filtering out the name of an event just appended to a cell that lacked that name gives the cell back |
| Calendar.EventCalendar.constructor | event_calendar.py:6-16 | the rows are `num_days` (30 by default) midnights from the start's midnight, the columns are the rooms, every cell is empty, and the table is valid |
| Calendar.EventCalendar.AddEvent | event_calendar.py:29-45 | a missing cell fails the lookup; a clash with any event of the start-day cell of that room fails with the overlap error; otherwise exactly `Event(name, start, start + duration)` is appended to that cell. Every other cell is unchanged, a failure changes nothing, and validity is kept |
| Calendar.EventCalendar.RemoveEvent | event_calendar.py:47-58 | a missing exact (date, room) cell fails the lookup and changes nothing; otherwise that cell becomes its name-filtered self, every other cell is unchanged, and validity is kept |
| Calendar.EventCalendar.ListEventsOnDate | event_calendar.py:60-68 | a date that is not a row label has no row; otherwise the row pairs each room, in column order, with its cell; the table is not modified |
| Scenarios.Fixture | tests/test_calendar.py:7-12 | the fixture's calendar is valid, has the three rooms, 30 rows from today's midnight, and empty cells |
| Scenarios.HalfHourLaterIsRefused | tests/test_calendar.py:22-28 | a one-hour booking at 11:00 succeeds and a one-hour booking at 11:30 in the same room fails with the overlap error |
| Scenarios.BookingLandsInItsDayCell | tests/test_calendar.py:15-18 | a two-hour booking at 10:00 succeeds and its day's cell then holds exactly one event |
| Scenarios.LookupByStartTimeFindsNoCell | tests/test_calendar.py:19 | after that booking, a lookup keyed by the 10:00 start time finds no cell |
| Scenarios.FutureBookingLandsTenDaysAhead | tests/test_calendar.py:31-35 | a three-hour booking ten days ahead lands in that day's cell and leaves today's cell of that room empty |
| Scenarios.BookingFromTheEndIsAccepted | event_calendar.py:42-44 | a booking starting when the booked one ends is accepted and appended after it |
| Scenarios.BookingUpToTheStartIsAccepted | event_calendar.py:42-44 | a booking ending when the booked one starts is accepted and appended after it, in booking order rather than time order |
| Scenarios.OtherRoomsNeverClash | event_calendar.py:39-42 | the same hour booked in two rooms succeeds in both |
| Scenarios.PastMidnightIsNotSeenNextDay | event_calendar.py:39-42 | a 23:00-01:00 booking does not block a 00:30 booking the next day in the same room |
| Scenarios.OutsideTheHorizonIsNotFound | event_calendar.py:39-40 | a booking a minute before the first midnight or at the midnight after the last day fails the lookup |
| Scenarios.RemoveNeedsTheDayKey | event_calendar.py:56 | removing by the start time instead of the day's midnight fails the lookup and keeps the booking |
| Scenarios.RemoveUnknownNameChangesNothing | event_calendar.py:56-58 | removing a name that is not booked leaves the cell as it was |
| Scenarios.RemoveKeepsOtherBookings | event_calendar.py:56-58 | removing a booked name drops its event and keeps the other booking |
| Scenarios.RemoveUndoesAdd | event_calendar.py:44-58 | on any valid calendar, booking a name new to its cell and then removing that name from its day restores the whole table |
| Scenarios.ListTodaysRow | event_calendar.py:66-68 | today's row lists the three rooms in order with the booked cell filled, and a non-midnight date has no row |

## Findings

| source | as written | input that shows it | evidently intended | confidence | as-written member | corrected member |
|---|---|---|---|---|---|---|
| tests/test_calendar.py:19 | after booking at 10:00, the test reads the cell keyed by the 10:00 start time; line 36 does the same with the 14:00 start | any booking whose start is not a midnight, such as 10:00 today | read the cell keyed by the start's midnight, which is where `add_event` files the event (event_calendar.py:39) | not executed; medium (pandas `.at` raises `KeyError` for a label missing from the index) | Scenarios.LookupByStartTimeFindsNoCell | Scenarios.BookingLandsInItsDayCell |

## Left out

- Sub-minute precision: times are whole minutes and durations whole minutes. The source's seconds, microseconds and fractional-hour durations are not modelled.
- The clock: when no start is given the source reads `datetime.now()`; the model takes the start as a parameter.
- Conversions of the date arguments (`pd.to_datetime`, `pd.Timestamp`): dates are already timestamps. A date given as a string is not modelled: `add_event` would call `str.replace` on it at line 39, and `remove_event` would pass it unconverted to `.at` at line 56.
- The bounded range of pandas timestamps and durations (64-bit nanoseconds): `pd.Timedelta` at line 37 raises for a duration beyond about 2.56 million hours, before the lookup, and `pd.date_range` at line 14 raises when the rows run past 2262-04-11. Calendar.EventCalendar.AddEvent accepts every integer duration and the constructor every natural number of days, so those two errors are not modelled.
- A negative `num_days`, which `pd.date_range` rejects: the model takes a natural number.
- Duplicate room names: the model keeps one cell per distinct name. The behaviour of a table with duplicate columns is not modelled.
- Calendar.EventCalendar.ListEventsOnDate: returns the row's cells as values. In the source the returned row shares the cell lists with the table, so a caller that mutates them changes the table; that aliasing is not modelled.
- The rooms list is kept by reference in the source (`self.rooms = rooms`); the model copies it as a value.
- `data_store.py` (JSON and CSV file persistence through pandas) and `config.py` (a JSON configuration reader) are I/O wrappers and are not part of this model.
- The docstring block inside `__init__` describes parameters that do not exist and has no behaviour.
