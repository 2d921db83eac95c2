/** The activity log (`logActivity`): append one entry, keep the newest `Cap`. */
module ActivityLog {
  import opened Records

  const Cap: nat := 100

  /** The newest `Cap` entries of `s`, oldest first (all of `s` when it is short enough). */
  function Newest(s: seq<LogEntry>): (r: seq<LogEntry>)
    ensures |r| == if |s| <= Cap then |s| else Cap
    ensures forall k :: 0 <= k < |r| ==> r[k] == s[|s| - |r| + k]
  {
    if |s| > Cap then s[|s| - Cap..] else s
  }

  /** The log after one `logActivity` call that records `e`. */
  function Appended(logs: seq<LogEntry>, e: LogEntry): (r: seq<LogEntry>)
    ensures |r| == if |logs| < Cap then |logs| + 1 else Cap
    ensures r[|r| - 1] == e
    ensures r[..|r| - 1] == logs[|logs| - (|r| - 1)..]
  {
    var pushed := logs + [e];
    if |pushed| > Cap then pushed[|pushed| - Cap..] else pushed
  }

  /** The log after one `logActivity` call per entry of `es`, in order. */
  function Recorded(logs: seq<LogEntry>, es: seq<LogEntry>): seq<LogEntry>
    decreases |es|
  {
    if es == [] then logs else Recorded(Appended(logs, es[0]), es[1..])
  }

  /** Cutting a prefix off `s` that leaves at least `Cap` entries does not change
      which entries are newest after more are added. */
  lemma NewestOfLongSuffix(s: seq<LogEntry>, u: seq<LogEntry>, t: seq<LogEntry>)
    requires |u| <= |s| && u == s[|s| - |u|..]
    requires |u| >= Cap
    ensures Newest(u + t) == Newest(s + t)
  {
  }

  lemma SplitFirst(logs: seq<LogEntry>, es: seq<LogEntry>)
    requires es != []
    ensures logs + es == (logs + [es[0]]) + es[1..]
  {
  }

  /** However many entries are recorded, starting from a log within the cap, the
      log holds exactly the newest `Cap` of all entries, in chronological order. */
  lemma {:induction false} RecordedKeepsNewest(logs: seq<LogEntry>, es: seq<LogEntry>)
    requires |logs| <= Cap
    ensures Recorded(logs, es) == Newest(logs + es)
    decreases |es|
  {
    if es == [] {
      assert logs + es == logs;
    } else {
      var pushed := logs + [es[0]];
      var next := Appended(logs, es[0]);
      assert next == Newest(pushed);
      RecordedKeepsNewest(next, es[1..]);
      SplitFirst(logs, es);
      if |logs| == Cap {
        NewestOfLongSuffix(pushed, next, es[1..]);
      }
    }
  }
}
