/**
 * The dict-keyed resource calendars (structured_resource_calendar in
 * resource-miner/role_resource_calendars.py): the timestamps of each
 * resource are sorted first, and the weekly times are taken per weekday
 * directly, without the per-date stage.
 */
module RoleResourceCalendars {
  import opened Seqs
  import opened Time
  import opened EventLog
  import opened ResourceCalendars

  /** The value stored under a resource name. */
  datatype Schedule = Schedule(workdays: seq<Weekday>, weeklyTimes: map<Weekday, DayTimes>)

  /** `groupby(day_name).agg(['min', 'max'])`, as times of day. */
  function WeeklyTimes(ts: seq<Instant>): (r: map<Weekday, DayTimes>)
    ensures forall w :: w in r <==> w in Days(ts)
  {
    map w | w in Days(ts) ::
      DayIsInhabited(ts, w);
      DayTimes(Earliest(OnDay(ts, w)).clock, Latest(OnDay(ts, w)).clock)
  }

  /** The schedule of one resource with timestamps `ts`. */
  function SortedSchedule(ts: seq<Instant>): Schedule
  {
    var sorted := Sort(ts);
    Schedule(Distinct(Days(sorted)), WeeklyTimes(sorted))
  }

  /** In a sorted sequence, the first timestamp on a weekday is the earliest on it. */
  lemma FirstOnDayIsEarliest(s: seq<Instant>, w: Weekday)
    requires Sorted(s) && w in Days(s)
    ensures |OnDay(s, w)| > 0 && Earliest(OnDay(s, w)) == s[FirstIndex(Days(s), w)]
  {
    var p := FirstIndex(Days(s), w);
    var group := OnDay(s, w);
    assert s[p] in group;
    forall x | x in group ensures Before(s[p], x) {
      var q :| 0 <= q < |s| && s[q] == x;
    }
    EarliestUnique(group, s[p]);
  }

  /** Sorting does not change the timestamps on any weekday. */
  lemma SortKeepsDays(ts: seq<Instant>, w: Weekday)
    ensures w in Days(Sort(ts)) <==> w in Days(ts)
    ensures w in Days(ts) ==>
      |OnDay(ts, w)| > 0 && |OnDay(Sort(ts), w)| > 0 &&
      Earliest(OnDay(Sort(ts), w)) == Earliest(OnDay(ts, w)) &&
      Latest(OnDay(Sort(ts), w)) == Latest(OnDay(ts, w))
  {
    var s := Sort(ts);
    SortSameElements(ts);
    if w in Days(ts) {
      var i :| 0 <= i < |ts| && Days(ts)[i] == w;
      assert ts[i] in s;
      DayIsInhabited(ts, w);
      ExtremesIgnoreOrder(OnDay(ts, w), OnDay(s, w));
    }
    if w in Days(s) {
      var i :| 0 <= i < |s| && Days(s)[i] == w;
      assert s[i] in ts;
    }
  }

  /** What the schedule says about one weekday. */
  lemma ScheduleOn(ts: seq<Instant>, w: Weekday)
    ensures var schedule := SortedSchedule(ts);
      && (w in schedule.workdays <==> w in Days(ts))
      && (w in schedule.weeklyTimes <==> w in Days(ts))
      && (w in Days(ts) ==>
            var on := OnDay(ts, w);
            |on| > 0 && schedule.weeklyTimes[w] == DayTimes(Earliest(on).clock, Latest(on).clock))
  {
    var s := Sort(ts);
    SortKeepsDays(ts, w);
    if w in Days(s) {
      InDistinct(Days(s), w);
      assert WeeklyTimes(s)[w] == DayTimes(Earliest(OnDay(s, w)).clock, Latest(OnDay(s, w)).clock);
    }
  }

  /**
   * What a schedule says about the resource's timestamps: the workdays
   * are their weekdays, each once; the weekly-times keys are the workdays;
   * each weekday maps to the time of day of its earliest and latest
   * timestamp.
   */
  lemma ScheduleProperties(ts: seq<Instant>)
    ensures var schedule := SortedSchedule(ts);
      && NoDuplicates(schedule.workdays)
      && (forall w :: w in schedule.workdays <==> w in Days(ts))
      && (forall w :: w in schedule.weeklyTimes <==> w in schedule.workdays)
      && (forall w :: w in schedule.weeklyTimes ==>
            |OnDay(ts, w)| > 0 &&
            schedule.weeklyTimes[w] == DayTimes(Earliest(OnDay(ts, w)).clock, Latest(OnDay(ts, w)).clock))
  {
    forall w {
      ScheduleOn(ts, w);
    }
  }

  /**
   * The workdays are in chronological order of first occurrence: each
   * workday's earliest timestamp comes strictly before that of every later
   * workday.
   */
  lemma WorkdaysChronological(ts: seq<Instant>, i: nat, j: nat)
    requires i < j < |SortedSchedule(ts).workdays|
    ensures var days := SortedSchedule(ts).workdays;
      var earlier, later := OnDay(ts, days[i]), OnDay(ts, days[j]);
      && |earlier| > 0 && |later| > 0
      && Before(Earliest(earlier), Earliest(later))
      && Earliest(earlier) != Earliest(later)
  {
    var s := Sort(ts);
    var days := Distinct(Days(s));
    var wi, wj := days[i], days[j];
    DistinctFirstAppearance(Days(s), i, j);
    FirstOnDayIsEarliest(s, wi);
    FirstOnDayIsEarliest(s, wj);
    SortKeepsDays(ts, wi);
    SortKeepsDays(ts, wj);
    var p, q := FirstIndex(Days(s), wi), FirstIndex(Days(s), wj);
    assert Day(s[p]) == wi && Day(s[q]) == wj;
  }

  /** Both calendar variants report the same weekdays as workdays. */
  lemma SameWorkdays(name: string, ts: seq<Instant>)
    ensures forall w :: w in SortedSchedule(ts).workdays <==> w in ResourceCalendar(name, ts).workdays
  {
    forall w ensures w in SortedSchedule(ts).workdays <==> w in ResourceCalendar(name, ts).workdays {
      ScheduleOn(ts, w);
      if w in Days(ts) {
        InDistinct(Days(ts), w);
      }
    }
  }

  /** Both calendar variants report the same weekly times. */
  lemma SameWeeklyTimes(name: string, ts: seq<Instant>)
    ensures SortedSchedule(ts).weeklyTimes == ResourceCalendar(name, ts).weeklyTimes
  {
    var a, b := SortedSchedule(ts).weeklyTimes, ResourceCalendar(name, ts).weeklyTimes;
    forall w ensures (w in a <==> w in b) && (w in a ==> a[w] == b[w]) {
      ScheduleOn(ts, w);
      CalendarOn(name, ts, w);
    }
    MapsEqual(a, b);
  }

  /** Storing the value of the next key keeps every key read so far. */
  lemma PrefixKeys(m: map<string, Schedule>, order: seq<string>, i: nat, v: Schedule)
    requires i < |order|
    requires forall k :: 0 <= k < i ==> order[k] in m
    ensures forall k :: 0 <= k < i + 1 ==> order[k] in m[order[i] := v]
  {
  }

  /**
   * The loop over the collected dict: the schedule of each key's
   * timestamps, stored under that key.
   */
  method SchedulesOf(order: seq<string>, times: map<string, seq<Instant>>) returns (calendars: map<string, Schedule>)
    requires forall r :: r in times <==> r in order
    ensures forall r :: r in calendars <==> r in order
    ensures forall r :: r in calendars ==> calendars[r] == SortedSchedule(times[r])
  {
    calendars := map[];
    for i := 0 to |order|
      invariant forall k :: 0 <= k < i ==> order[k] in calendars
      invariant forall r :: r in calendars ==> r in order
      invariant forall r :: r in calendars ==> calendars[r] == SortedSchedule(times[r])
    {
      var resource := order[i];
      var schedule := SortedSchedule(times[resource]);
      PrefixKeys(calendars, order, i, schedule);
      calendars := calendars[resource := schedule];
    }
    forall r | r in order ensures r in calendars {
      var k :| 0 <= k < |order| && order[k] == r;
    }
  }

  /**
   * structured_resource_calendar: the schedule of every resource, keyed by
   * its name; the dict is returned as its keys in insertion order and the
   * map, and the keys follow the resources' first appearance in the log.
   */
  method StructuredResourceCalendar(log: Log) returns (order: seq<string>, calendars: map<string, Schedule>)
    ensures order == Distinct(ResourceNames(Flatten(log)))
    ensures forall r :: r in calendars <==> r in ResourceNames(Flatten(log))
    ensures forall r :: r in calendars ==> calendars[r] == SortedSchedule(TimesOf(Flatten(log), r))
  {
    var resourceCalendar;
    order, resourceCalendar := CollectTimestamps(log);
    calendars := SchedulesOf(order, resourceCalendar);
    forall r | r in ResourceNames(Flatten(log)) ensures r in calendars {
      InDistinct(ResourceNames(Flatten(log)), r);
    }
  }
}
