/**
 * Activity-to-resource grouping (get_activity_resources in
 * resource-miner/role_resource.py; resource-miner/role_resource_calendars.py
 * holds a verbatim copy).
 */
module RoleResource {
  import opened Seqs
  import opened EventLog

  /** One output record: `{'Activity': ..., 'Resources': ...}`. */
  datatype ActivityResources = ActivityResources(activity: string, resources: string)

  /** The activities of a sequence of events, in event order. */
  function ActivityNames(es: seq<Event>): (r: seq<string>)
    ensures |r| == |es| && forall i :: 0 <= i < |es| ==> r[i] == es[i].activity
  {
    seq(|es|, i requires 0 <= i < |es| => es[i].activity)
  }

  /** The resources of the events that carry activity `a`. */
  function ResourcesOf(es: seq<Event>, a: string): set<string>
  {
    set e | e in es && e.activity == a :: e.resource
  }

  /** `sep.join(parts)`. */
  function Join(parts: seq<string>, sep: string): string
  {
    if parts == [] then ""
    else if |parts| == 1 then parts[0]
    else parts[0] + sep + Join(parts[1..], sep)
  }

  /** `parts` lists the elements of `s`, each once. */
  predicate Enumerates(parts: seq<string>, s: set<string>)
  {
    NoDuplicates(parts) && (forall i :: 0 <= i < |parts| ==> parts[i] in s) && |parts| == |s|
  }

  /** `text` is the elements of `s` joined by ", " in some iteration order. */
  ghost predicate JoinsSet(text: string, s: set<string>)
  {
    exists parts :: Enumerates(parts, s) && text == Join(parts, ", ")
  }

  /** A set listed in an unspecified order (Python set iteration). */
  method Enumerate(s: set<string>) returns (parts: seq<string>)
    ensures Enumerates(parts, s)
    ensures forall x :: x in parts <==> x in s
  {
    parts := [];
    var rest := s;
    while rest != {}
      invariant NoDuplicates(parts)
      invariant forall x :: x in s <==> x in parts || x in rest
      invariant forall x :: x in parts ==> x !in rest
      invariant |parts| + |rest| == |s|
      decreases rest
    {
      var x :| x in rest;
      parts := parts + [x];
      rest := rest - {x};
    }
  }

  lemma ResourcesOfStep(es: seq<Event>, e: Event, a: string)
    ensures ResourcesOf(es + [e], a) == ResourcesOf(es, a) + (if e.activity == a then {e.resource} else {})
  {
    var lhs, rhs := ResourcesOf(es + [e], a), ResourcesOf(es, a) + (if e.activity == a then {e.resource} else {});
    forall r | r in lhs ensures r in rhs {
      var e' :| e' in es + [e] && e'.activity == a && e'.resource == r;
      if e' != e {
        assert e' in es;
      }
    }
  }

  /**
   * get_activity_resources: groups the resources of every event under its
   * activity (a defaultdict(set), keys kept in insertion order), then emits
   * one record per activity with the resources joined by ", ".
   */
  method GetActivityResources(log: Log) returns (records: seq<ActivityResources>)
    ensures var order := Distinct(ActivityNames(Flatten(log)));
      && |records| == |order|
      && (forall i :: 0 <= i < |records| ==> records[i].activity == order[i])
    ensures forall i :: 0 <= i < |records| ==>
      JoinsSet(records[i].resources, ResourcesOf(Flatten(log), records[i].activity))
    ensures Flatten(log) == [] ==> records == []
  {
    var order, activityResources := GroupResourcesByActivity(log);
    records := [];
    for k := 0 to |order|
      invariant |records| == k
      invariant forall m :: 0 <= m < k ==> records[m].activity == order[m]
      invariant forall m :: 0 <= m < k ==>
        JoinsSet(records[m].resources, ResourcesOf(Flatten(log), records[m].activity))
    {
      var activity := order[k];
      var resources := Enumerate(activityResources[activity]);
      records := records + [ActivityResources(activity, Join(resources, ", "))];
    }
  }

  /** An activity no event carries has no resources. */
  lemma UnseenActivity(seen: seq<Event>, a: string)
    requires a !in ActivityNames(seen)
    ensures ResourcesOf(seen, a) == {}
  {
    forall e | e in seen ensures e.activity != a {
      var i :| 0 <= i < |seen| && seen[i] == e;
      assert ActivityNames(seen)[i] == e.activity;
    }
  }

  /** Adding one event to the defaultdict keeps it equal to the grouping of the events seen. */
  lemma GroupStep(seen: seq<Event>, e: Event, order: seq<string>, groups: map<string, set<string>>,
                  order': seq<string>, groups': map<string, set<string>>)
    requires order == Distinct(ActivityNames(seen))
    requires forall a :: a in groups <==> a in order
    requires forall a :: a in groups ==> groups[a] == ResourcesOf(seen, a)
    requires order' == if e.activity in groups then order else order + [e.activity]
    requires groups' == groups[e.activity := (if e.activity in groups then groups[e.activity] else {}) + {e.resource}]
    ensures order' == Distinct(ActivityNames(seen + [e]))
    ensures forall a :: a in groups' <==> a in order'
    ensures forall a :: a in groups' ==> groups'[a] == ResourcesOf(seen + [e], a)
  {
    GroupOrderStep(seen, e, order, groups, order');
    forall i | 0 <= i < |seen| ensures seen[i].activity in groups {
      assert ActivityNames(seen)[i] == seen[i].activity;
      InDistinct(ActivityNames(seen), seen[i].activity);
    }
    GroupValuesStep(seen, e, groups);
  }

  /** The keys after one event: the activities seen, in first-appearance order. */
  lemma GroupOrderStep(seen: seq<Event>, e: Event, order: seq<string>, groups: map<string, set<string>>,
                       order': seq<string>)
    requires order == Distinct(ActivityNames(seen))
    requires forall a :: a in groups <==> a in order
    requires order' == if e.activity in groups then order else order + [e.activity]
    ensures order' == Distinct(ActivityNames(seen + [e]))
  {
    assert ActivityNames(seen + [e]) == ActivityNames(seen) + [e.activity];
    DistinctSnoc(ActivityNames(seen), e.activity);
  }

  /** The values after one event: each activity's resources among the events seen. */
  lemma GroupValuesStep(seen: seq<Event>, e: Event, groups: map<string, set<string>>)
    requires forall a :: a in groups ==> groups[a] == ResourcesOf(seen, a)
    requires forall i :: 0 <= i < |seen| ==> seen[i].activity in groups
    ensures var groups' := groups[e.activity := (if e.activity in groups then groups[e.activity] else {}) + {e.resource}];
      forall a :: a in groups' ==> groups'[a] == ResourcesOf(seen + [e], a)
  {
    forall a | a == e.activity || a in groups
      ensures var groups' := groups[e.activity := (if e.activity in groups then groups[e.activity] else {}) + {e.resource}];
        groups'[a] == ResourcesOf(seen + [e], a)
    {
      GroupEntryStep(seen, e, groups, a);
    }
  }

  /** The entry of one activity after adding event `e`. */
  lemma GroupEntryStep(seen: seq<Event>, e: Event, groups: map<string, set<string>>, a: string)
    requires a in groups ==> groups[a] == ResourcesOf(seen, a)
    requires a !in groups ==> a !in ActivityNames(seen)
    ensures var groups' := groups[e.activity := (if e.activity in groups then groups[e.activity] else {}) + {e.resource}];
      a in groups' ==> groups'[a] == ResourcesOf(seen + [e], a)
  {
    ResourcesOfStep(seen, e, a);
    if a !in groups {
      UnseenActivity(seen, a);
    }
  }

  /**
   * The first loop of get_activity_resources: the `activity_resources`
   * defaultdict(set), returned as its keys in insertion order and the dict.
   */
  method GroupResourcesByActivity(log: Log) returns (order: seq<string>, activityResources: map<string, set<string>>)
    ensures order == Distinct(ActivityNames(Flatten(log)))
    ensures forall a :: a in activityResources <==> a in order
    ensures forall a :: a in activityResources ==> activityResources[a] == ResourcesOf(Flatten(log), a)
  {
    order := [];
    activityResources := map[];
    ghost var seen: seq<Event> := [];
    for i := 0 to |log|
      invariant seen == Flatten(log[..i])
      invariant order == Distinct(ActivityNames(seen))
      invariant forall a :: a in activityResources <==> a in order
      invariant forall a :: a in activityResources ==> activityResources[a] == ResourcesOf(seen, a)
    {
      var case_ := log[i];
      ghost var before := seen;
      for j := 0 to |case_|
        invariant seen == before + case_[..j]
        invariant order == Distinct(ActivityNames(seen))
        invariant forall a :: a in activityResources <==> a in order
        invariant forall a :: a in activityResources ==> activityResources[a] == ResourcesOf(seen, a)
      {
        var event := case_[j];
        TakeSnoc(before, case_, j);
        ghost var order0, groups0 := order, activityResources;
        var activity := event.activity;
        var current := if activity in activityResources then activityResources[activity] else {};
        if activity !in activityResources {
          order := order + [activity];
        }
        activityResources := activityResources[activity := current + {event.resource}];
        GroupStep(seen, event, order0, groups0, order, activityResources);
        seen := seen + [event];
      }
      assert case_[..|case_|] == case_;
      FlattenStep(log, i);
    }
    assert log[..|log|] == log;
  }
}
