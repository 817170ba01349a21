/** The append-only activity_log table of KeyWorkerApp/database_utils.py.
    Its timestamp column (CURRENT_TIMESTAMP) is modelled as a counter: the
    entry appended to a log of n entries gets timestamp n. */
module ActivityLog {
  import opened Tables

  /** Every entry's timestamp is its position: the counter never repeats
      and grows with each insert. */
  predicate Stamped(log: seq<LogEntry>)
  {
    forall i :: 0 <= i < |log| ==> log[i].timestamp == i
  }

  /** log_activity: one INSERT at the end. */
  function Append(log: seq<LogEntry>, user: string, action: string, details: string): seq<LogEntry>
  {
    log + [LogEntry(|log|, user, action, details)]
  }

  /** SELECT ... ORDER BY timestamp DESC, over a stamped log. */
  function NewestFirst(log: seq<LogEntry>): (r: seq<LogEntry>)
    ensures |r| == |log|
    ensures forall i :: 0 <= i < |log| ==> r[i] == log[|log| - 1 - i]
  {
    if log == [] then [] else [log[|log| - 1]] + NewestFirst(log[..|log| - 1])
  }

  /** Appending keeps the log stamped and never changes an earlier entry. */
  lemma AppendFacts(log: seq<LogEntry>, user: string, action: string, details: string)
    requires Stamped(log)
    ensures var log' := Append(log, user, action, details);
      && Stamped(log')
      && |log'| == |log| + 1
      && log'[..|log|] == log
      && log'[|log|] == LogEntry(|log|, user, action, details)
  {
  }

  /** get_activity_log lists entries with strictly decreasing timestamps, the
      most recent first. */
  lemma NewestFirstDescending(log: seq<LogEntry>)
    requires Stamped(log)
    ensures var r := NewestFirst(log);
      forall i, j :: 0 <= i < j < |r| ==> r[i].timestamp > r[j].timestamp
  {
  }

  /** The entry just logged is the first one get_activity_log returns. */
  lemma NewestFirstAfterAppend(log: seq<LogEntry>, user: string, action: string, details: string)
    ensures NewestFirst(Append(log, user, action, details)) == [LogEntry(|log|, user, action, details)] + NewestFirst(log)
  {
    var log' := Append(log, user, action, details);
    assert log'[..|log'| - 1] == log;
  }
}
