/**
 * Timestamps of event logs. A timestamp is a calendar date plus a time of
 * day; the weekday is a function of the date. Sub-second precision and time
 * zones are not modelled.
 */
module Time {

  /** Seconds since midnight. */
  type Clock = c: int | 0 <= c < 86400

  /** `date` counts days since 1970-01-01; `clock` is the time of day. */
  datatype Instant = Instant(date: int, clock: Clock)

  datatype Weekday = Monday | Tuesday | Wednesday | Thursday | Friday | Saturday | Sunday

  /** The day name of a date (pandas `dt.day_name()`); day 0 was a Thursday. */
  function WeekdayOf(date: int): Weekday
  {
    var k := date % 7;
    if k == 0 then Thursday
    else if k == 1 then Friday
    else if k == 2 then Saturday
    else if k == 3 then Sunday
    else if k == 4 then Monday
    else if k == 5 then Tuesday
    else Wednesday
  }

  function Day(t: Instant): Weekday
  {
    WeekdayOf(t.date)
  }

  /** Seconds since the epoch. */
  function Seconds(t: Instant): int
  {
    t.date * 86400 + t.clock
  }

  /** Chronological order: by date, then by time of day. */
  predicate Before(a: Instant, b: Instant)
  {
    a.date < b.date || (a.date == b.date && a.clock <= b.clock)
  }

  /** The chronological order is the order of the seconds since the epoch. */
  lemma BeforeIsSecondsOrder(a: Instant, b: Instant)
    ensures Before(a, b) <==> Seconds(a) <= Seconds(b)
  {
    if a.date < b.date {
      assert (a.date + 1) * 86400 <= b.date * 86400;
    } else if b.date < a.date {
      assert (b.date + 1) * 86400 <= a.date * 86400;
    }
  }

  /** The earliest timestamp of a non-empty sequence (pandas `min`). */
  function Earliest(s: seq<Instant>): (m: Instant)
    requires |s| > 0
    ensures m in s
    ensures forall i :: 0 <= i < |s| ==> Before(m, s[i])
  {
    if |s| == 1 then s[0]
    else
      var m := Earliest(s[1..]);
      assert forall i :: 1 <= i < |s| ==> s[i] == s[1..][i - 1];
      if Before(s[0], m) then s[0] else m
  }

  /** The latest timestamp of a non-empty sequence (pandas `max`). */
  function Latest(s: seq<Instant>): (m: Instant)
    requires |s| > 0
    ensures m in s
    ensures forall i :: 0 <= i < |s| ==> Before(s[i], m)
  {
    if |s| == 1 then s[0]
    else
      var m := Latest(s[1..]);
      assert forall i :: 1 <= i < |s| ==> s[i] == s[1..][i - 1];
      if Before(m, s[0]) then s[0] else m
  }

  /** Every element of `s` lies between its earliest and its latest. */
  lemma Between(s: seq<Instant>, x: Instant)
    requires x in s
    ensures Before(Earliest(s), x) && Before(x, Latest(s))
  {
    var i :| 0 <= i < |s| && s[i] == x;
  }

  /** An element of `s` that precedes every element is the earliest. */
  lemma EarliestUnique(s: seq<Instant>, m: Instant)
    requires m in s
    requires forall x :: x in s ==> Before(m, x)
    ensures Earliest(s) == m
  {
  }

  /** An element of `s` that follows every element is the latest. */
  lemma LatestUnique(s: seq<Instant>, m: Instant)
    requires m in s
    requires forall x :: x in s ==> Before(x, m)
    ensures Latest(s) == m
  {
  }

  /** The earliest and latest of a sequence depend only on its elements, not their order. */
  lemma ExtremesIgnoreOrder(s: seq<Instant>, t: seq<Instant>)
    requires |s| > 0
    requires forall x :: x in s <==> x in t
    ensures |t| > 0 && Earliest(s) == Earliest(t) && Latest(s) == Latest(t)
  {
    assert s[0] in t;
    EarliestUnique(t, Earliest(s));
    LatestUnique(t, Latest(s));
  }

  predicate Sorted(s: seq<Instant>)
  {
    forall i, j :: 0 <= i < j < |s| ==> Before(s[i], s[j])
  }

  /** Inserts `x` into a sorted sequence. */
  function Insert(x: Instant, s: seq<Instant>): (r: seq<Instant>)
    requires Sorted(s)
    ensures Sorted(r)
    ensures multiset(r) == multiset(s) + multiset{x}
    ensures forall i :: 0 <= i < |r| ==> r[i] == x || r[i] in s
  {
    if s == [] then [x]
    else if Before(x, s[0]) then [x] + s
    else
      var t := Insert(x, s[1..]);
      assert s == [s[0]] + s[1..];
      assert forall i :: 0 <= i < |t| ==> Before(s[0], t[i]);
      [s[0]] + t
  }

  /** Chronological sort (Python `list.sort()`, pandas `sort_values()`). */
  function Sort(s: seq<Instant>): (r: seq<Instant>)
    ensures Sorted(r)
    ensures multiset(r) == multiset(s)
  {
    if s == [] then []
    else
      assert s == [s[0]] + s[1..];
      Insert(s[0], Sort(s[1..]))
  }

  /** Two sorted arrangements of the same timestamps are identical. */
  lemma {:induction false} SortedUnique(a: seq<Instant>, b: seq<Instant>)
    requires Sorted(a) && Sorted(b)
    requires multiset(a) == multiset(b)
    ensures a == b
  {
    assert |a| == |multiset(a)| == |multiset(b)| == |b|;
    if a != [] {
      assert a[0] in multiset(b) && b[0] in multiset(a);
      assert a[0] == b[0];
      assert a == [a[0]] + a[1..] && b == [b[0]] + b[1..];
      assert multiset(a[1..]) == multiset(a) - multiset{a[0]};
      assert multiset(b[1..]) == multiset(b) - multiset{b[0]};
      SortedUnique(a[1..], b[1..]);
    }
  }

  /** Sorting keeps exactly the same timestamps. */
  lemma SortSameElements(s: seq<Instant>)
    ensures |Sort(s)| == |s|
    ensures forall x :: x in Sort(s) <==> x in s
  {
    var r := Sort(s);
    assert |multiset(r)| == |multiset(s)|;
    forall x ensures x in r <==> x in s {
      assert x in r <==> x in multiset(r);
    }
  }
}
