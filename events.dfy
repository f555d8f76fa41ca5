/** Events, the cells of the booking table that hold them, and the facts the
    calendar relies on: the overlap test of `add_event`, the midnight key of a
    time, the row index of consecutive days, and the name filter of
    `remove_event`. Times are whole minutes counted from a midnight. */
module Events {

  /** A point in time, in minutes; every multiple of `MinutesPerDay` is a midnight. */
  type Time = int

  type Room = string

  const MinutesPerDay: int := 1440

  /** The record `add_event` stores: `{event_name, start_time, end_time}`. */
  datatype Event = Event(name: string, start: Time, end: Time)

  /** The clash test of `add_event`: the existing event `a` clashes with the
      new event `b` unless `a` ends at or before `b` starts or `a` starts at
      or after `b` ends. */
  predicate Overlaps(a: Event, b: Event)
    ensures Overlaps(a, b) <==> b.start < a.end && a.start < b.end
    ensures a.end == b.start || a.start == b.end ==> !Overlaps(a, b)
  {
    !(a.end <= b.start || a.start >= b.end)
  }

  /** Minute `t` lies in the half-open interval `[e.start, e.end)` of `e`. */
  predicate Covers(e: Event, t: Time) {
    e.start <= t < e.end
  }

  /** `e` clashes with no event of `cell`: the condition under which `add_event` appends. */
  predicate Fits(cell: seq<Event>, e: Event)
    ensures Fits(cell, e) <==> forall x :: x in cell ==> !Overlaps(x, e)
  {
    forall k :: 0 <= k < |cell| ==> !Overlaps(cell[k], e)
  }

  /** The cell invariant: no two events of the cell clash. */
  predicate Disjoint(cell: seq<Event>) {
    forall i, j :: 0 <= i < j < |cell| ==> !Overlaps(cell[i], cell[j])
  }

  /** The midnight that starts the day of `t` (`replace(hour=0, minute=0, ...)`). */
  function DayKey(t: Time): (d: Time)
    ensures d % MinutesPerDay == 0
    ensures d <= t < d + MinutesPerDay
  {
    t - t % MinutesPerDay
  }

  /** The row index of the table: `n` consecutive midnights from `origin`. */
  function Days(origin: Time, n: nat): (ds: seq<Time>)
    ensures |ds| == n
    ensures n > 0 ==> ds[0] == origin
    ensures forall k :: 0 < k < n ==> ds[k] == ds[k - 1] + MinutesPerDay
  {
    seq(n, k => origin + k * MinutesPerDay)
  }

  /** The list comprehension of `remove_event`: the events of `cell` not named
      `name`, in their original order. */
  function FilterOut(cell: seq<Event>, name: string): (r: seq<Event>)
    ensures |r| <= |cell|
    ensures forall e :: e in r <==> e in cell && e.name != name
  {
    if cell == [] then []
    else if cell[0].name != name then [cell[0]] + FilterOut(cell[1..], name)
    else FilterOut(cell[1..], name)
  }

  // ---------------------------------------------------------------------------
  // The overlap test

  /** Two events with positive length clash exactly when some minute lies in
      both half-open intervals `[start, end)`. */
  lemma OverlapsIffSharedMinute(a: Event, b: Event)
    requires a.start < a.end && b.start < b.end
    ensures Overlaps(a, b) <==> exists t :: Covers(a, t) && Covers(b, t)
  {
    if Overlaps(a, b) {
      var t := if a.start < b.start then b.start else a.start;
      assert Covers(a, t) && Covers(b, t);
    }
  }

  /** The clash test does not depend on which event is already booked. */
  lemma OverlapsSymmetric(a: Event, b: Event)
    ensures Overlaps(a, b) <==> Overlaps(b, a)
  {
  }

  /** Intervals that only touch do not clash: an event ending when the other
      starts is accepted either way round. */
  lemma TouchingDoNotOverlap(a: Event, b: Event)
    requires a.end == b.start || a.start == b.end
    ensures !Overlaps(a, b) && !Overlaps(b, a)
  {
  }

  /** Appending an event that fits keeps the cell invariant. */
  lemma AppendKeepsDisjoint(cell: seq<Event>, e: Event)
    requires Disjoint(cell) && Fits(cell, e)
    ensures Disjoint(cell + [e])
  {
    var c := cell + [e];
    forall i, j | 0 <= i < j < |c|
      ensures !Overlaps(c[i], c[j])
    {
      if j == |cell| {
        assert c[i] == cell[i] && c[j] == e;
      } else {
        assert c[i] == cell[i] && c[j] == cell[j];
      }
    }
  }

  // ---------------------------------------------------------------------------
  // Day keys and the row index

  /** `DayKey(t)` is the only midnight `m` with `m <= t < m + MinutesPerDay`. */
  lemma DayKeyUnique(t: Time, m: Time)
    requires m % MinutesPerDay == 0 && m <= t < m + MinutesPerDay
    ensures DayKey(t) == m
  {
  }

  /** The row index holds consecutive midnights one day apart, starting at `origin`. */
  lemma DaysAreConsecutiveMidnights(origin: Time, n: nat, k: nat)
    requires origin % MinutesPerDay == 0 && k < n
    ensures Days(origin, n)[k] % MinutesPerDay == 0
    ensures Days(origin, n)[0] == origin
    ensures k + 1 < n ==> Days(origin, n)[k + 1] == Days(origin, n)[k] + MinutesPerDay
  {
  }

  /** A time that is not a midnight is no row label, so an exact-date lookup
      with it fails. */
  lemma OnlyMidnightsAreDays(origin: Time, n: nat, t: Time)
    requires origin % MinutesPerDay == 0 && t % MinutesPerDay != 0
    ensures t !in Days(origin, n)
  {
  }

  /** The day key of `t` is a row of the table exactly when `t` falls within
      the `n` days that start at `origin`: the `.at` lookup of `add_event`
      finds its row for these times and for no others. */
  lemma DayKeyInDays(origin: Time, n: nat, t: Time)
    requires origin % MinutesPerDay == 0
    ensures DayKey(t) in Days(origin, n) <==> origin <= t < origin + n * MinutesPerDay
  {
    var ds := Days(origin, n);
    if origin <= t < origin + n * MinutesPerDay {
      var k := (t - origin) / MinutesPerDay;
      assert 0 <= k < n;
      var m := origin + k * MinutesPerDay;
      assert m <= t < m + MinutesPerDay;
      DaysAreConsecutiveMidnights(origin, n, k);
      assert ds[k] == m;
      DayKeyUnique(t, m);
    }
    if DayKey(t) in ds {
      var k :| 0 <= k < n && ds[k] == DayKey(t);
      assert origin + k * MinutesPerDay <= t < origin + (k + 1) * MinutesPerDay;
    }
  }

  // ---------------------------------------------------------------------------
  // The name filter of remove_event

  /** Filtering distributes over concatenation, so the kept events stay in
      their original order. */
  lemma {:induction false} FilterOutAppend(a: seq<Event>, b: seq<Event>, name: string)
    ensures FilterOut(a + b, name) == FilterOut(a, name) + FilterOut(b, name)
  {
    if a == [] {
      assert a + b == b;
    } else {
      assert (a + b)[0] == a[0];
      assert (a + b)[1..] == a[1..] + b;
      FilterOutAppend(a[1..], b, name);
    }
  }

  /** Removing a name is a no-op exactly when no event of the cell carries it. */
  lemma {:induction false} FilterOutNoMatch(cell: seq<Event>, name: string)
    ensures FilterOut(cell, name) == cell <==> forall k :: 0 <= k < |cell| ==> cell[k].name != name
  {
    if cell != [] {
      FilterOutNoMatch(cell[1..], name);
      if cell[0].name == name {
        assert cell[0] !in FilterOut(cell, name);
      } else {
        assert forall k :: 1 <= k < |cell| ==> cell[k] == cell[1..][k - 1];
      }
    }
  }

  /** Removing a name twice is the same as removing it once. */
  lemma FilterOutIdempotent(cell: seq<Event>, name: string)
    ensures FilterOut(FilterOut(cell, name), name) == FilterOut(cell, name)
  {
  }

  /** Removing the name of an event just appended, when no earlier event of
      the cell carried it, gives back the cell as it was. */
  lemma RemoveUndoesAppend(cell: seq<Event>, e: Event)
    requires forall k :: 0 <= k < |cell| ==> cell[k].name != e.name
    ensures FilterOut(cell + [e], e.name) == cell
  {
    FilterOutAppend(cell, [e], e.name);
    FilterOutNoMatch(cell, e.name);
    assert FilterOut([e], e.name) == [];
  }

  /** Putting in front of a disjoint cell an event that clashes with none of
      its events keeps the cell disjoint. */
  lemma PrependKeepsDisjoint(x: Event, cell: seq<Event>)
    requires Disjoint(cell) && forall y :: y in cell ==> !Overlaps(x, y)
    ensures Disjoint([x] + cell)
  {
    var c := [x] + cell;
    forall i, j | 0 <= i < j < |c| ensures !Overlaps(c[i], c[j]) {
      assert c[j] == cell[j - 1];
      if i > 0 {
        assert c[i] == cell[i - 1];
      }
    }
  }

  /** Filtering a cell whose events are pairwise disjoint keeps them pairwise disjoint. */
  lemma {:induction false} FilterOutKeepsDisjoint(cell: seq<Event>, name: string)
    requires Disjoint(cell)
    ensures Disjoint(FilterOut(cell, name))
  {
    if cell != [] {
      var tail := cell[1..];
      assert Disjoint(tail) by {
        forall i, j | 0 <= i < j < |tail| ensures !Overlaps(tail[i], tail[j]) {
          assert tail[i] == cell[i + 1] && tail[j] == cell[j + 1];
        }
      }
      FilterOutKeepsDisjoint(tail, name);
      if cell[0].name != name {
        var rest := FilterOut(tail, name);
        forall y | y in rest ensures !Overlaps(cell[0], y) {
          var m :| 0 <= m < |tail| && tail[m] == y;
          assert cell[m + 1] == y;
        }
        PrependKeepsDisjoint(cell[0], rest);
      }
    }
  }
}
