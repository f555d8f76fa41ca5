/** The room-booking table of `EventCalendar`: a grid of days by rooms whose
    every cell is a list of events. The days are consecutive midnights, the
    rooms are fixed at construction, and within each cell no two events
    clash. */
module Calendar {
  import opened Events

  datatype Option<T> = None | Some(value: T)

  /** How a call that the source may abandon with an exception ends:
      normally, with the `ValueError` "Event time overlap", or with the
      `KeyError` of a table lookup whose row or column does not exist. */
  datatype Outcome = Success | EventTimeOverlap | KeyNotFound

  class EventCalendar {
    /** The column labels, in the order the caller gave them. */
    const rooms: seq<Room>
    /** The row labels: consecutive midnights. */
    const days: seq<Time>
    /** The table: one list of events per (day, room) cell. */
    var cells: map<(Time, Room), seq<Event>>

    /** The cells are exactly the (day, room) pairs of the grid, and the
        events of each cell are pairwise disjoint. */
    ghost predicate Valid()
      reads this
    {
      && (forall d, rm :: (d, rm) in cells <==> d in days && rm in rooms)
      && (forall key :: key in cells ==> Disjoint(cells[key]))
    }

    /** Builds a table of `numDays` rows (30 by default) starting at the
        midnight of `start` (the caller's clock reading when no start is
        given), with one column per room and an empty list in every cell. */
    constructor (rooms: seq<Room>, start: Time, numDays: nat := 30)
      ensures Valid()
      ensures this.rooms == rooms
      ensures days == Days(DayKey(start), numDays)
      ensures forall key :: key in cells ==> cells[key] == []
    {
      this.rooms := rooms;
      var ds := Days(DayKey(start), numDays);
      days := ds;
      cells := map d, rm | d in ds && rm in rooms :: (d, rm) := [];
    }

    /** Books `name` in `room` from `start` for `duration` minutes. The event
        goes into the cell of the start's day; it is refused when its interval
        clashes with an event already in that cell, and the table is left
        unchanged. Otherwise it is appended to that cell and no other cell
        changes. */
    method AddEvent(room: Room, start: Time, name: string, duration: int) returns (r: Outcome)
      requires Valid()
      modifies this
      ensures Valid()
      ensures var key, e := (DayKey(start), room), Event(name, start, start + duration);
        && (r == KeyNotFound <==> key !in old(cells))
        && (r == EventTimeOverlap <==> key in old(cells) && !Fits(old(cells)[key], e))
        && (r == Success <==> key in old(cells) && Fits(old(cells)[key], e))
        && (r == Success ==> cells == old(cells)[key := old(cells)[key] + [e]])
        && (r != Success ==> cells == old(cells))
    {
      var end := start + duration;
      var e := Event(name, start, end);
      var key := (DayKey(start), room);
      if key !in cells {
        return KeyNotFound;
      }
      var events := cells[key];
      var i := 0;
      while i < |events|
        invariant 0 <= i <= |events|
        invariant forall k :: 0 <= k < i ==> !Overlaps(events[k], e)
      {
        var existing := events[i];
        if !(existing.end <= start || existing.start >= end) {
          return EventTimeOverlap;
        }
        i := i + 1;
      }
      AppendKeepsDisjoint(events, e);
      cells := cells[key := events + [e]];
      r := Success;
    }

    /** Deletes every event named `name` from the one cell at (`date`, `room`),
        keeping the others in order; `date` must be a row label as it stands. */
    method RemoveEvent(room: Room, date: Time, name: string) returns (r: Outcome)
      requires Valid()
      modifies this
      ensures Valid()
      ensures r != EventTimeOverlap
      ensures r == KeyNotFound <==> (date, room) !in old(cells)
      ensures r == Success ==> cells == old(cells)[(date, room) := FilterOut(old(cells)[(date, room)], name)]
      ensures r == KeyNotFound ==> cells == old(cells)
    {
      var key := (date, room);
      if key !in cells {
        return KeyNotFound;
      }
      var events := cells[key];
      FilterOutKeepsDisjoint(events, name);
      cells := cells[key := FilterOut(events, name)];
      r := Success;
    }

    /** The row of the table for `date`: each room paired with its cell, in
        column order, or `None` when `date` is not a row label. */
    method ListEventsOnDate(date: Time) returns (row: Option<seq<(Room, seq<Event>)>>)
      requires Valid()
      ensures row.None? <==> date !in days
      ensures row.Some? ==> |row.value| == |rooms|
      ensures row.Some? ==> forall j :: 0 <= j < |rooms| ==>
        (date, rooms[j]) in cells && row.value[j] == (rooms[j], cells[(date, rooms[j])])
    {
      if date !in days {
        return None;
      }
      var table := cells;
      var labels := rooms;
      assert forall j :: 0 <= j < |labels| ==> (date, labels[j]) in table;
      row := Some(seq(|labels|, j requires 0 <= j < |labels| => (labels[j], table[(date, labels[j])])));
    }
  }
}
