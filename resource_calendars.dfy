/**
 * Resource calendars (structured_resource_calendar in
 * resource-miner/resource_calendars.py): per resource, the weekdays it
 * worked on and, per weekday, its earliest and latest time of day.
 */
module ResourceCalendars {
  import opened Seqs
  import opened Time
  import opened EventLog

  // ---------------------------------------------------------------------
  // Step 1: timestamps per resource

  /** The resources of a sequence of events, in event order. */
  function ResourceNames(es: seq<Event>): (r: seq<string>)
    ensures |r| == |es| && forall i :: 0 <= i < |es| ==> r[i] == es[i].resource
  {
    seq(|es|, i requires 0 <= i < |es| => es[i].resource)
  }

  /** The timestamps of the events of resource `r`, in event order. */
  function TimesOf(es: seq<Event>, r: string): seq<Instant>
  {
    if es == [] then []
    else TimesOf(es[..|es| - 1], r) + (if es[|es| - 1].resource == r then [es[|es| - 1].time] else [])
  }

  /** A resource's timestamps are exactly the timestamps of its events. */
  lemma {:induction false} TimesOfMembers(es: seq<Event>, r: string)
    ensures forall t :: t in TimesOf(es, r) <==> exists e :: e in es && e.resource == r && e.time == t
  {
    if es != [] {
      var init := es[..|es| - 1];
      TimesOfMembers(init, r);
      assert es == init + [es[|es| - 1]];
    }
  }

  /** A resource not seen yet has no timestamps. */
  lemma {:induction false} UnseenResource(es: seq<Event>, r: string)
    requires r !in ResourceNames(es)
    ensures TimesOf(es, r) == []
  {
    if es != [] {
      var init := es[..|es| - 1];
      assert ResourceNames(init) == ResourceNames(es)[..|es| - 1];
      UnseenResource(init, r);
    }
  }

  /** Appending one event to the defaultdict(list) keeps it equal to the grouping of the events seen. */
  lemma CollectStep(seen: seq<Event>, e: Event, order: seq<string>, times: map<string, seq<Instant>>,
                    order': seq<string>, times': map<string, seq<Instant>>)
    requires order == Distinct(ResourceNames(seen))
    requires forall r :: r in times <==> r in order
    requires forall r :: r in times ==> times[r] == TimesOf(seen, r)
    requires order' == if e.resource in times then order else order + [e.resource]
    requires times' == times[e.resource := (if e.resource in times then times[e.resource] else []) + [e.time]]
    ensures order' == Distinct(ResourceNames(seen + [e]))
    ensures forall r :: r in times' <==> r in order'
    ensures forall r :: r in times' ==> times'[r] == TimesOf(seen + [e], r)
  {
    assert ResourceNames(seen + [e]) == ResourceNames(seen) + [e.resource];
    DistinctSnoc(ResourceNames(seen), e.resource);
    forall r | r in times' ensures times'[r] == TimesOf(seen + [e], r) {
      TimesOfStep(seen, e, r);
      if r == e.resource && r !in times {
        if r in ResourceNames(seen) {
          InDistinct(ResourceNames(seen), r);
        }
        UnseenResource(seen, r);
      }
    }
  }

  lemma TimesOfStep(seen: seq<Event>, e: Event, r: string)
    ensures TimesOf(seen + [e], r) == TimesOf(seen, r) + (if e.resource == r then [e.time] else [])
  {
    assert (seen + [e])[..|seen|] == seen;
  }

  /**
   * Step 1 of structured_resource_calendar: the `resource_calendar`
   * defaultdict(list), returned as its keys in insertion order and the dict.
   * resource-miner/role_resource_calendars.py runs the same loop.
   */
  method CollectTimestamps(log: Log) returns (order: seq<string>, resourceCalendar: map<string, seq<Instant>>)
    ensures order == Distinct(ResourceNames(Flatten(log)))
    ensures forall r :: r in resourceCalendar <==> r in order
    ensures forall r :: r in resourceCalendar ==> resourceCalendar[r] == TimesOf(Flatten(log), r)
  {
    order := [];
    resourceCalendar := map[];
    ghost var seen: seq<Event> := [];
    for i := 0 to |log|
      invariant seen == Flatten(log[..i])
      invariant order == Distinct(ResourceNames(seen))
      invariant forall r :: r in resourceCalendar <==> r in order
      invariant forall r :: r in resourceCalendar ==> resourceCalendar[r] == TimesOf(seen, r)
    {
      var case_ := log[i];
      ghost var before := seen;
      for j := 0 to |case_|
        invariant seen == before + case_[..j]
        invariant order == Distinct(ResourceNames(seen))
        invariant forall r :: r in resourceCalendar <==> r in order
        invariant forall r :: r in resourceCalendar ==> resourceCalendar[r] == TimesOf(seen, r)
      {
        var event := case_[j];
        TakeSnoc(before, case_, j);
        ghost var order0, times0 := order, resourceCalendar;
        var resource := event.resource;
        var current := if resource in resourceCalendar then resourceCalendar[resource] else [];
        if resource !in resourceCalendar {
          order := order + [resource];
        }
        resourceCalendar := resourceCalendar[resource := current + [event.time]];
        CollectStep(seen, event, order0, times0, order, resourceCalendar);
        seen := seen + [event];
      }
      assert case_[..|case_|] == case_;
      FlattenStep(log, i);
    }
    assert log[..|log|] == log;
  }

  // ---------------------------------------------------------------------
  // Steps 2 and 3: the per-resource aggregation

  function Days(ts: seq<Instant>): (r: seq<Weekday>)
    ensures |r| == |ts| && forall i :: 0 <= i < |ts| ==> r[i] == Day(ts[i])
  {
    seq(|ts|, i requires 0 <= i < |ts| => Day(ts[i]))
  }

  function Dates(ts: seq<Instant>): (r: seq<int>)
    ensures |r| == |ts| && forall i :: 0 <= i < |ts| ==> r[i] == ts[i].date
  {
    seq(|ts|, i requires 0 <= i < |ts| => ts[i].date)
  }

  /** The timestamps on date `d`, in order. */
  function OnDate(ts: seq<Instant>, d: int): (r: seq<Instant>)
    ensures forall x :: x in r <==> x in ts && x.date == d
  {
    if ts == [] then []
    else (if ts[0].date == d then [ts[0]] else []) + OnDate(ts[1..], d)
  }

  /** The timestamps on weekday `w`, in order. */
  function OnDay(ts: seq<Instant>, w: Weekday): (r: seq<Instant>)
    ensures forall x :: x in r <==> x in ts && Day(x) == w
  {
    if ts == [] then []
    else (if Day(ts[0]) == w then [ts[0]] else []) + OnDay(ts[1..], w)
  }

  /** A weekday that some timestamp falls on has a non-empty group. */
  lemma DayIsInhabited(ts: seq<Instant>, w: Weekday)
    requires w in Days(ts)
    ensures |OnDay(ts, w)| > 0
  {
    var i :| 0 <= i < |ts| && Days(ts)[i] == w;
    assert ts[i] in OnDay(ts, w);
  }

  /** Earliest and latest timestamp of a group. */
  datatype Span = Span(min: Instant, max: Instant)

  /** One row of the (day_of_week, date) groupby. */
  datatype DayDateRow = DayDateRow(day: Weekday, date: int, span: Span)

  lemma DateIsPresent(ts: seq<Instant>, d: int)
    requires d in Dates(ts)
    ensures |OnDate(ts, d)| > 0
  {
    var i :| 0 <= i < |ts| && Dates(ts)[i] == d;
    assert ts[i] in OnDate(ts, d);
  }

  /** Step 3: the min and max timestamp of each (weekday, date) group. */
  function MinMaxPerDayDate(ts: seq<Instant>): (rows: seq<DayDateRow>)
    ensures |rows| == |Distinct(Dates(ts))|
    ensures forall k :: 0 <= k < |rows| ==>
      var row := rows[k];
      && row.date == Distinct(Dates(ts))[k]
      && |OnDate(ts, row.date)| > 0
      && row.day == WeekdayOf(row.date)
      && row.span == Span(Earliest(OnDate(ts, row.date)), Latest(OnDate(ts, row.date)))
  {
    var ds := Distinct(Dates(ts));
    seq(|ds|, k requires 0 <= k < |ds| =>
      DateIsPresent(ts, ds[k]);
      var g := OnDate(ts, ds[k]);
      DayDateRow(WeekdayOf(ds[k]), ds[k], Span(Earliest(g), Latest(g))))
  }

  /** Every timestamp falls in the group of some row. */
  lemma RowOf(ts: seq<Instant>, x: Instant) returns (k: nat)
    requires x in ts
    ensures k < |MinMaxPerDayDate(ts)| && MinMaxPerDayDate(ts)[k].date == x.date
    ensures MinMaxPerDayDate(ts)[k].day == Day(x)
    ensures MinMaxPerDayDate(ts)[k].span ==
      Span(Earliest(OnDate(ts, x.date)), Latest(OnDate(ts, x.date)))
  {
    var i :| 0 <= i < |ts| && ts[i] == x;
    assert Dates(ts)[i] == x.date;
    InDistinct(Dates(ts), x.date);
    k := FirstIndex(Distinct(Dates(ts)), x.date);
  }

  /** The rows of weekday `w`, in order. */
  function RowsOn(rows: seq<DayDateRow>, w: Weekday): (r: seq<DayDateRow>)
    ensures forall x :: x in r <==> x in rows && x.day == w
  {
    if rows == [] then []
    else (if rows[0].day == w then [rows[0]] else []) + RowsOn(rows[1..], w)
  }

  function Mins(rows: seq<DayDateRow>): (r: seq<Instant>)
    ensures |r| == |rows| && forall k :: 0 <= k < |rows| ==> r[k] == rows[k].span.min
  {
    seq(|rows|, k requires 0 <= k < |rows| => rows[k].span.min)
  }

  function Maxes(rows: seq<DayDateRow>): (r: seq<Instant>)
    ensures |r| == |rows| && forall k :: 0 <= k < |rows| ==> r[k] == rows[k].span.max
  {
    seq(|rows|, k requires 0 <= k < |rows| => rows[k].span.max)
  }

  /** The weekdays that label some row. */
  function RowDays(rows: seq<DayDateRow>): set<Weekday>
  {
    set k | 0 <= k < |rows| :: rows[k].day
  }

  lemma DayIsPresent(rows: seq<DayDateRow>, w: Weekday)
    requires w in RowDays(rows)
    ensures |RowsOn(rows, w)| > 0
  {
    var k :| 0 <= k < |rows| && rows[k].day == w;
    assert rows[k] in RowsOn(rows, w);
  }

  /** Step 3, second stage: min of the mins and max of the maxes per weekday. */
  function MinMaxPerDay(rows: seq<DayDateRow>): map<Weekday, Span>
  {
    map w | w in RowDays(rows) ::
      DayIsPresent(rows, w);
      Span(Earliest(Mins(RowsOn(rows, w))), Latest(Maxes(RowsOn(rows, w))))
  }

  /** The row weekdays are exactly the weekdays of the timestamps. */
  lemma RowDaysAreDays(ts: seq<Instant>)
    ensures forall w :: w in RowDays(MinMaxPerDayDate(ts)) <==> w in Days(ts)
  {
    var rows := MinMaxPerDayDate(ts);
    forall w | w in Days(ts) ensures w in RowDays(rows) {
      var i :| 0 <= i < |ts| && Days(ts)[i] == w;
      var k := RowOf(ts, ts[i]);
      assert rows[k].day == w;
    }
  }

  /** A position at which an element of a sequence occurs. */
  lemma IndexOf(s: seq<Instant>, x: Instant) returns (k: nat)
    requires x in s
    ensures k < |s| && s[k] == x
  {
    k :| 0 <= k < |s| && s[k] == x;
  }

  /** The min of the per-date mins of weekday `w` is a timestamp on `w`; so is the max of the maxes. */
  lemma MinOfMinsOnDay(ts: seq<Instant>, w: Weekday)
    requires |RowsOn(MinMaxPerDayDate(ts), w)| > 0
    ensures Earliest(Mins(RowsOn(MinMaxPerDayDate(ts), w))) in OnDay(ts, w)
  {
    var on := RowsOn(MinMaxPerDayDate(ts), w);
    var a := IndexOf(Mins(on), Earliest(Mins(on)));
    RowSpanOnDay(ts, on, a);
  }

  lemma MaxOfMaxesOnDay(ts: seq<Instant>, w: Weekday)
    requires |RowsOn(MinMaxPerDayDate(ts), w)| > 0
    ensures Latest(Maxes(RowsOn(MinMaxPerDayDate(ts), w))) in OnDay(ts, w)
  {
    var on := RowsOn(MinMaxPerDayDate(ts), w);
    var b := IndexOf(Maxes(on), Latest(Maxes(on)));
    RowSpanOnDay(ts, on, b);
  }

  lemma RowSpanOnDay(ts: seq<Instant>, on: seq<DayDateRow>, a: nat)
    requires a < |on|
    requires on[a] in MinMaxPerDayDate(ts)
    ensures on[a].span.min in OnDay(ts, on[a].day) && on[a].span.max in OnDay(ts, on[a].day)
  {
    var rows := MinMaxPerDayDate(ts);
    var k :| 0 <= k < |rows| && rows[k] == on[a];
    var g := OnDate(ts, rows[k].date);
    assert Earliest(g) in g && Latest(g) in g;
  }

  /** Every timestamp on weekday `w` lies between the min of the mins and the max of the maxes. */
  lemma StageTwoBrackets(ts: seq<Instant>, w: Weekday, x: Instant)
    requires x in OnDay(ts, w)
    ensures |RowsOn(MinMaxPerDayDate(ts), w)| > 0
    ensures Before(Earliest(Mins(RowsOn(MinMaxPerDayDate(ts), w))), x)
    ensures Before(x, Latest(Maxes(RowsOn(MinMaxPerDayDate(ts), w))))
  {
    var rows := MinMaxPerDayDate(ts);
    var k := RowOf(ts, x);
    var on := RowsOn(rows, w);
    assert rows[k] in on;
    var c :| 0 <= c < |on| && on[c] == rows[k];
    Between(OnDate(ts, rows[k].date), x);
    assert Before(Earliest(Mins(on)), Mins(on)[c]) && Before(Maxes(on)[c], Latest(Maxes(on)));
  }

  /**
   * The two-stage aggregation collapses: the min of the per-date mins of a
   * weekday is the earliest timestamp on that weekday, the max of the
   * per-date maxes the latest, and the first is not after the second.
   */
  lemma TwoStageCollapse(ts: seq<Instant>, w: Weekday)
    requires w in Days(ts)
    ensures |OnDay(ts, w)| > 0
    ensures w in MinMaxPerDay(MinMaxPerDayDate(ts))
    ensures MinMaxPerDay(MinMaxPerDayDate(ts))[w] == Span(Earliest(OnDay(ts, w)), Latest(OnDay(ts, w)))
    ensures Before(Earliest(OnDay(ts, w)), Latest(OnDay(ts, w)))
  {
    var rows := MinMaxPerDayDate(ts);
    var group := OnDay(ts, w);
    var i :| 0 <= i < |ts| && Days(ts)[i] == w;
    assert ts[i] in group;
    StageTwoBrackets(ts, w, ts[i]);
    RowDaysAreDays(ts);
    var on := RowsOn(rows, w);
    MinOfMinsOnDay(ts, w);
    MaxOfMaxesOnDay(ts, w);
    forall x | x in group ensures Before(Earliest(Mins(on)), x) && Before(x, Latest(Maxes(on))) {
      StageTwoBrackets(ts, w, x);
    }
    EarliestUnique(group, Earliest(Mins(on)));
    LatestUnique(group, Latest(Maxes(on)));
    assert Earliest(group) in group;
  }

  // ---------------------------------------------------------------------
  // The output record

  /** `{'min': ..., 'max': ...}`: the times of day, formatting left out. */
  datatype DayTimes = DayTimes(min: Clock, max: Clock)

  /** One entry of the result list. */
  datatype Calendar = Calendar(name: string, workdays: seq<Weekday>, weeklyTimes: map<Weekday, DayTimes>)

  function TimesOfDay(perDay: map<Weekday, Span>): map<Weekday, DayTimes>
  {
    map w | w in perDay :: DayTimes(perDay[w].min.clock, perDay[w].max.clock)
  }

  /** Steps 2 and 3 for one resource with timestamps `ts`. */
  function ResourceCalendar(name: string, ts: seq<Instant>): Calendar
  {
    Calendar(name, Distinct(Days(ts)), TimesOfDay(MinMaxPerDay(MinMaxPerDayDate(ts))))
  }

  /** What a calendar entry says about one weekday. */
  lemma CalendarOn(name: string, ts: seq<Instant>, w: Weekday)
    ensures var times := ResourceCalendar(name, ts).weeklyTimes;
      (w in times <==> w in Days(ts)) &&
      (w in Days(ts) ==>
        var on := OnDay(ts, w);
        |on| > 0 && times[w] == DayTimes(Earliest(on).clock, Latest(on).clock))
  {
    RowDaysAreDays(ts);
    if w in Days(ts) {
      TwoStageCollapse(ts, w);
    }
  }

  /**
   * What a calendar entry says about the resource's timestamps: the
   * workdays are their weekdays, each once, in order of first appearance;
   * the weekly-times keys are the workdays; each weekday maps to the time
   * of day of its earliest and latest timestamp.
   */
  lemma CalendarProperties(name: string, ts: seq<Instant>)
    ensures var c := ResourceCalendar(name, ts);
      && c.name == name
      && NoDuplicates(c.workdays)
      && (forall w :: w in c.workdays <==> w in Days(ts))
      && (forall i, j :: 0 <= i < j < |c.workdays| ==>
            FirstIndex(Days(ts), c.workdays[i]) < FirstIndex(Days(ts), c.workdays[j]))
      && (forall w :: w in c.weeklyTimes <==> w in c.workdays)
      && (forall w :: w in c.weeklyTimes ==>
            |OnDay(ts, w)| > 0 &&
            c.weeklyTimes[w] == DayTimes(Earliest(OnDay(ts, w)).clock, Latest(OnDay(ts, w)).clock))
  {
    var c := ResourceCalendar(name, ts);
    RowDaysAreDays(ts);
    forall w ensures w in c.workdays <==> w in Days(ts) {
      if w in Days(ts) {
        InDistinct(Days(ts), w);
      }
    }
    forall i, j | 0 <= i < j < |c.workdays|
      ensures FirstIndex(Days(ts), c.workdays[i]) < FirstIndex(Days(ts), c.workdays[j])
    {
      DistinctFirstAppearance(Days(ts), i, j);
    }
    forall w | w in c.weeklyTimes
      ensures |OnDay(ts, w)| > 0
      ensures c.weeklyTimes[w] == DayTimes(Earliest(OnDay(ts, w)).clock, Latest(OnDay(ts, w)).clock)
    {
      TwoStageCollapse(ts, w);
    }
  }

  /**
   * The comment on step 3 says min and max come "from the same date", but
   * the second stage takes them over all dates: two Thursdays, one worked
   * late and one early, give a minimum time of day after the maximum.
   */
  lemma TimesOfDayMayCross()
    ensures var ts := [Instant(0, 50000), Instant(7, 10000)];
      Thursday in ResourceCalendar("r", ts).weeklyTimes &&
      ResourceCalendar("r", ts).weeklyTimes[Thursday] == DayTimes(50000, 10000)
  {
    var ts := [Instant(0, 50000), Instant(7, 10000)];
    assert Days(ts)[0] == Thursday && Days(ts)[1] == Thursday;
    CalendarProperties("r", ts);
    var group := OnDay(ts, Thursday);
    assert ts[0] in group && ts[1] in group;
    Between(group, ts[0]);
    Between(group, ts[1]);
  }

  // ---------------------------------------------------------------------
  // The whole function

  /** The loop over `resource_calendar.items()`: one calendar per key, in key order. */
  method CalendarsOf(order: seq<string>, times: map<string, seq<Instant>>) returns (calendars: seq<Calendar>)
    requires forall k :: 0 <= k < |order| ==> order[k] in times
    ensures |calendars| == |order|
    ensures forall k :: 0 <= k < |order| ==> calendars[k] == ResourceCalendar(order[k], times[order[k]])
  {
    calendars := [];
    for i := 0 to |order|
      invariant |calendars| == i
      invariant forall k :: 0 <= k < i ==> calendars[k] == ResourceCalendar(order[k], times[order[k]])
    {
      var resource := order[i];
      var timestamps := times[resource];
      calendars := calendars + [ResourceCalendar(resource, timestamps)];
    }
  }

  /** structured_resource_calendar: one calendar per resource, in order of first appearance. */
  method StructuredResourceCalendar(log: Log) returns (calendars: seq<Calendar>)
    ensures |calendars| == |Distinct(ResourceNames(Flatten(log)))|
    ensures forall k :: 0 <= k < |calendars| ==>
      var r := Distinct(ResourceNames(Flatten(log)))[k];
      calendars[k] == ResourceCalendar(r, TimesOf(Flatten(log), r))
  {
    var order, resourceCalendar := CollectTimestamps(log);
    calendars := CalendarsOf(order, resourceCalendar);
  }
}
