/** Client runs of `EventCalendar`, each a short booking story proved from the
    contracts of the calendar alone. The three rooms and the 30-day horizon
    are those the test fixture builds; `today` stands for the clock reading
    the fixture takes. */
module Scenarios {
  import opened Events
  import opened Calendar

  const Conference: Room := "Conference Room"
  const MeetingOne: Room := "Meeting Room 1"
  const MeetingTwo: Room := "Meeting Room 2"

  /** A 30-day calendar over the three rooms, starting at the midnight of `today`. */
  method Fixture(today: Time) returns (cal: EventCalendar)
    ensures fresh(cal) && cal.Valid()
    ensures cal.rooms == [Conference, MeetingOne, MeetingTwo]
    ensures forall key :: key in cal.cells ==> cal.cells[key] == []
    ensures cal.days == Days(DayKey(today), 30)
  {
    cal := new EventCalendar([Conference, MeetingOne, MeetingTwo], today, 30);
  }

  /** Minute `minute` of day `day` of the calendar started at `today` has its
      row in the table, keyed by that day's midnight. */
  lemma MinuteOfDay(today: Time, day: nat, minute: int)
    requires day < 30 && 0 <= minute < MinutesPerDay
    ensures DayKey(DayKey(today) + day * MinutesPerDay + minute) == DayKey(today) + day * MinutesPerDay
    ensures DayKey(today) + day * MinutesPerDay in Days(DayKey(today), 30)
  {
    var origin := DayKey(today);
    DaysAreConsecutiveMidnights(origin, 30, day);
    assert Days(origin, 30)[day] == origin + day * MinutesPerDay;
    DayKeyUnique(origin + day * MinutesPerDay + minute, origin + day * MinutesPerDay);
  }

  /** A one-hour booking at 11:00 followed by a one-hour booking at 11:30 in
      the same room: the first is stored, the second is refused. */
  method HalfHourLaterIsRefused(today: Time) returns (first: Outcome, second: Outcome)
    ensures first == Success && second == EventTimeOverlap
  {
    var cal := Fixture(today);
    var morning := DayKey(today);
    MinuteOfDay(today, 0, 11 * 60);
    MinuteOfDay(today, 0, 11 * 60 + 30);
    first := cal.AddEvent(Conference, morning + 11 * 60, "Morning Brief", 60);
    assert cal.cells[(morning, Conference)] == [Event("Morning Brief", morning + 660, morning + 720)];
    assert Overlaps(cal.cells[(morning, Conference)][0], Event("Extended Brief", morning + 690, morning + 750));
    second := cal.AddEvent(Conference, morning + 11 * 60 + 30, "Extended Brief", 60);
  }

  /** A two-hour booking at 10:00 lands, alone, in the cell of its day's
      midnight. */
  method BookingLandsInItsDayCell(today: Time) returns (outcome: Outcome, count: nat)
    ensures outcome == Success && count == 1
  {
    var cal := Fixture(today);
    var midnight := DayKey(today);
    MinuteOfDay(today, 0, 10 * 60);
    outcome := cal.AddEvent(Conference, midnight + 10 * 60, "Planning Meeting", 120);
    count := |cal.cells[(midnight, Conference)]|;
  }

  /** The lookup the booking tests make after a successful booking keys the
      table by the start time (10:00) rather than by its day's midnight;
      there is no such row, so that lookup finds no cell. */
  method LookupByStartTimeFindsNoCell(today: Time) returns (outcome: Outcome, found: bool)
    ensures outcome == Success && !found
  {
    var cal := Fixture(today);
    var midnight := DayKey(today);
    MinuteOfDay(today, 0, 10 * 60);
    outcome := cal.AddEvent(Conference, midnight + 10 * 60, "Planning Meeting", 120);
    OnlyMidnightsAreDays(midnight, 30, midnight + 10 * 60);
    found := (midnight + 10 * 60, Conference) in cal.cells;
  }

  /** A three-hour booking ten days ahead at 14:00 lands in that day's cell
      and leaves today's cell of the same room empty. */
  method FutureBookingLandsTenDaysAhead(today: Time) returns (outcome: Outcome, there: nat, here: nat)
    ensures outcome == Success && there == 1 && here == 0
  {
    var cal := Fixture(today);
    var origin := DayKey(today);
    MinuteOfDay(today, 10, 14 * 60);
    MinuteOfDay(today, 0, 0);
    outcome := cal.AddEvent(MeetingOne, origin + 10 * MinutesPerDay + 14 * 60, "Future Conference", 180);
    there := |cal.cells[(origin + 10 * MinutesPerDay, MeetingOne)]|;
    here := |cal.cells[(origin, MeetingOne)]|;
  }

  /** A booking that starts when the booked one ends is accepted and is
      appended after it: 10:00-11:00, then 11:00-12:00. */
  method BookingFromTheEndIsAccepted(today: Time) returns (a: Outcome, b: Outcome, names: seq<string>)
    ensures a == Success && b == Success
    ensures names == ["Ten", "Eleven"]
  {
    var cal := Fixture(today);
    var origin := DayKey(today);
    MinuteOfDay(today, 0, 10 * 60);
    MinuteOfDay(today, 0, 11 * 60);
    var ten := Event("Ten", origin + 600, origin + 660);
    var eleven := Event("Eleven", origin + 660, origin + 720);
    a := cal.AddEvent(Conference, origin + 10 * 60, "Ten", 60);
    TouchingDoNotOverlap(ten, eleven);
    b := cal.AddEvent(Conference, origin + 11 * 60, "Eleven", 60);
    var cell := cal.cells[(origin, Conference)];
    names := [cell[0].name, cell[1].name];
  }

  /** A booking that ends when the booked one starts is accepted too, and is
      appended after it although it comes first in time: 10:00-11:00, then
      09:00-10:00. */
  method BookingUpToTheStartIsAccepted(today: Time) returns (a: Outcome, b: Outcome, names: seq<string>)
    ensures a == Success && b == Success
    ensures names == ["Ten", "Nine"]
  {
    var cal := Fixture(today);
    var origin := DayKey(today);
    MinuteOfDay(today, 0, 9 * 60);
    MinuteOfDay(today, 0, 10 * 60);
    var ten := Event("Ten", origin + 600, origin + 660);
    var nine := Event("Nine", origin + 540, origin + 600);
    a := cal.AddEvent(Conference, origin + 10 * 60, "Ten", 60);
    TouchingDoNotOverlap(ten, nine);
    b := cal.AddEvent(Conference, origin + 9 * 60, "Nine", 60);
    var cell := cal.cells[(origin, Conference)];
    names := [cell[0].name, cell[1].name];
  }

  /** The same hour booked in two different rooms: the rooms never clash. */
  method OtherRoomsNeverClash(today: Time) returns (a: Outcome, b: Outcome)
    ensures a == Success && b == Success
  {
    var cal := Fixture(today);
    MinuteOfDay(today, 0, 600);
    a := cal.AddEvent(MeetingOne, DayKey(today) + 600, "Standup", 60);
    b := cal.AddEvent(MeetingTwo, DayKey(today) + 600, "Standup", 60);
  }

  /** A booking from 23:00 to 01:00 is filed under its start day only, so a
      booking at 00:30 the next day in the same room is not refused. */
  method PastMidnightIsNotSeenNextDay(today: Time) returns (late: Outcome, early: Outcome)
    ensures late == Success && early == Success
  {
    var cal := Fixture(today);
    var origin := DayKey(today);
    MinuteOfDay(today, 0, 23 * 60);
    MinuteOfDay(today, 1, 30);
    late := cal.AddEvent(Conference, origin + 23 * 60, "Late Show", 120);
    early := cal.AddEvent(Conference, origin + MinutesPerDay + 30, "Early Bird", 60);
  }

  /** Times outside the horizon have no row: a booking a minute before the
      first midnight, or at the midnight after the last day, fails the
      lookup. */
  method OutsideTheHorizonIsNotFound(today: Time) returns (before: Outcome, after: Outcome)
    ensures before == KeyNotFound && after == KeyNotFound
  {
    var cal := Fixture(today);
    var origin := DayKey(today);
    DayKeyInDays(origin, 30, origin - 1);
    DayKeyInDays(origin, 30, origin + 30 * MinutesPerDay);
    before := cal.AddEvent(Conference, origin - 1, "Too Early", 60);
    after := cal.AddEvent(Conference, origin + 30 * MinutesPerDay, "Too Late", 60);
  }

  /** Removing by the start time rather than the day's midnight fails the
      lookup: only midnights label rows. */
  method RemoveNeedsTheDayKey(today: Time) returns (booked: Outcome, wrongKey: Outcome, kept: nat)
    ensures booked == Success && wrongKey == KeyNotFound && kept == 1
  {
    var cal := Fixture(today);
    var origin := DayKey(today);
    MinuteOfDay(today, 0, 9 * 60);
    booked := cal.AddEvent(Conference, origin + 9 * 60, "Review", 60);
    OnlyMidnightsAreDays(origin, 30, origin + 9 * 60);
    wrongKey := cal.RemoveEvent(Conference, origin + 9 * 60, "Review");
    kept := |cal.cells[(origin, Conference)]|;
  }

  /** Removing a name that is not booked changes nothing. */
  method RemoveUnknownNameChangesNothing(today: Time) returns (before: seq<Event>, after: seq<Event>)
    ensures |before| == 1 && after == before
  {
    var cal := Fixture(today);
    var origin := DayKey(today);
    MinuteOfDay(today, 0, 9 * 60);
    var booked := cal.AddEvent(Conference, origin + 9 * 60, "Review", 60);
    before := cal.cells[(origin, Conference)];
    assert before == [Event("Review", origin + 540, origin + 600)];
    var removed := cal.RemoveEvent(Conference, origin, "Breakfast");
    FilterOutNoMatch(before, "Breakfast");
    after := cal.cells[(origin, Conference)];
  }

  /** Removing a booked name drops its event and keeps the other booking. */
  method RemoveKeepsOtherBookings(today: Time) returns (before: seq<Event>, after: seq<Event>)
    ensures |before| == 2 && after == [before[1]] && after[0].name == "Lunch"
  {
    var cal := Fixture(today);
    var origin := DayKey(today);
    MinuteOfDay(today, 0, 9 * 60);
    MinuteOfDay(today, 0, 12 * 60);
    var review := Event("Review", origin + 540, origin + 600);
    var lunch := Event("Lunch", origin + 720, origin + 780);
    var booked := cal.AddEvent(Conference, origin + 9 * 60, "Review", 60);
    assert cal.cells[(origin, Conference)] == [review];
    booked := cal.AddEvent(Conference, origin + 12 * 60, "Lunch", 60);
    before := cal.cells[(origin, Conference)];
    assert before == [review, lunch];
    var removed := cal.RemoveEvent(Conference, origin, "Review");
    after := cal.cells[(origin, Conference)];
    assert [review, lunch][1..] == [lunch];
    assert [lunch][1..] == [];
  }

  /** On any valid calendar, booking a name that its cell does not hold yet
      and then removing that name from the cell's day restores the table. */
  method RemoveUndoesAdd(cal: EventCalendar, room: Room, start: Time, name: string, duration: int)
      returns (added: Outcome, removed: Outcome)
    requires cal.Valid()
    requires (DayKey(start), room) in cal.cells
    requires forall k :: 0 <= k < |cal.cells[(DayKey(start), room)]| ==> cal.cells[(DayKey(start), room)][k].name != name
    modifies cal
    ensures cal.Valid()
    ensures added == Success ==> removed == Success && cal.cells == old(cal.cells)
    ensures added == EventTimeOverlap ==> cal.cells == old(cal.cells)
  {
    var key := (DayKey(start), room);
    added := cal.AddEvent(room, start, name, duration);
    if added == Success {
      RemoveUndoesAppend(old(cal.cells)[key], Event(name, start, start + duration));
      removed := cal.RemoveEvent(room, DayKey(start), name);
    } else {
      removed := added;
    }
  }

  /** The row for today lists the three rooms in column order with the
      booked cell filled; a date that is not a midnight has no row. */
  method ListTodaysRow(today: Time) returns (row: Option<seq<(Room, seq<Event>)>>, offGrid: Option<seq<(Room, seq<Event>)>>)
    ensures row.Some? && |row.value| == 3
    ensures row.value[0].0 == Conference && |row.value[0].1| == 1
    ensures row.value[1] == (MeetingOne, []) && row.value[2] == (MeetingTwo, [])
    ensures offGrid == None
  {
    var cal := Fixture(today);
    var origin := DayKey(today);
    MinuteOfDay(today, 0, 8 * 60);
    var booked := cal.AddEvent(Conference, origin + 8 * 60, "Breakfast Talk", 45);
    row := cal.ListEventsOnDate(origin);
    OnlyMidnightsAreDays(origin, 30, origin + 8 * 60);
    offGrid := cal.ListEventsOnDate(origin + 8 * 60);
  }
}
