/**
 * An already-parsed event log: a sequence of traces, each a sequence of
 * events carrying the attributes the miners read.
 */
module EventLog {
  import opened Time

  /**
   * One event: `concept:name`, `lifecycle:transition`, `org:resource` and
   * `time:timestamp`.
   */
  datatype Event = Event(activity: string, lifecycle: string, resource: string, time: Instant)

  type Trace = seq<Event>

  type Log = seq<Trace>

  /** All events of the log, trace after trace, each trace in its own order. */
  function Flatten(log: Log): seq<Event>
  {
    if log == [] then [] else Flatten(log[..|log| - 1]) + log[|log| - 1]
  }

  /** Reading one more trace appends its events. */
  lemma FlattenStep(log: Log, i: nat)
    requires i < |log|
    ensures Flatten(log[..i + 1]) == Flatten(log[..i]) + log[i]
  {
    assert log[..i + 1][..i] == log[..i];
  }
}
