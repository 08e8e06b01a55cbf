/** The time entries of the tracker and the list transformations its
    handlers apply: the load filter, the `some`/`find` queries and the
    `map`/`filter` updates keyed by entry id. */
module Entries {
  import opened Sequences

  /** One tracked stretch of work, as the list component keeps it. */
  datatype TimeEntry = TimeEntry(
    id: string,
    projectName: string,
    startTime: string,
    endTime: string,
    duration: string,
    isRunning: bool,
    count: int)

  /** A record as the server returns it: its `id` may be missing. */
  datatype Fetched = WithId(entry: TimeEntry) | MissingId

  /** The load filter: the fetched records whose `id` is defined, in order
      (an empty id is defined, so it is kept). */
  function ValidEntries(fetched: seq<Fetched>): (r: seq<TimeEntry>)
    ensures |r| <= |fetched|
    ensures forall e :: e in r <==> WithId(e) in fetched
  {
    if fetched == [] then []
    else
      var rest := ValidEntries(fetched[1..]);
      assert forall f :: f in fetched <==> f == fetched[0] || f in fetched[1..];
      match fetched[0]
      case WithId(e) => [e] + rest
      case MissingId => rest
  }

  /** Loading distributes over concatenation, so it keeps the server's order. */
  lemma {:induction false} ValidEntriesAppend(a: seq<Fetched>, b: seq<Fetched>)
    ensures ValidEntries(a + b) == ValidEntries(a) + ValidEntries(b)
  {
    if a == [] {
      assert a + b == b;
    } else {
      assert (a + b)[1..] == a[1..] + b;
      ValidEntriesAppend(a[1..], b);
    }
  }

  lemma ValidEntriesSingle(f: Fetched)
    ensures ValidEntries([f]) == (if f.WithId? then [f.entry] else [])
  {
  }

  /** `entries.some(entry => entry.isRunning)`. */
  function AnyRunning(es: seq<TimeEntry>): (r: bool)
    ensures r <==> exists i :: 0 <= i < |es| && es[i].isRunning
  {
    if es == [] then false
    else
      assert forall i :: 0 < i < |es| ==> es[i] == es[1..][i - 1];
      es[0].isRunning || AnyRunning(es[1..])
  }

  /** The number of entries marked running. */
  function RunningCount(es: seq<TimeEntry>): (n: nat)
    ensures n <= |es|
    ensures n == 0 <==> !AnyRunning(es)
  {
    if es == [] then 0
    else (if es[0].isRunning then 1 else 0) + RunningCount(es[1..])
  }

  lemma {:induction false} RunningCountAppend(a: seq<TimeEntry>, b: seq<TimeEntry>)
    ensures RunningCount(a + b) == RunningCount(a) + RunningCount(b)
  {
    if a == [] {
      assert a + b == b;
    } else {
      assert (a + b)[1..] == a[1..] + b;
      RunningCountAppend(a[1..], b);
    }
  }

  /** Appending a running entry to a list with none running leaves exactly
      one running entry. */
  lemma FreshStartRunsOne(es: seq<TimeEntry>, e: TimeEntry)
    requires !AnyRunning(es) && e.isRunning
    ensures RunningCount(es + [e]) == 1
  {
    RunningCountAppend(es, [e]);
  }

  /** The first entry with the given id (`entries.find(entry => entry.id === id)`). */
  function FindById(es: seq<TimeEntry>, id: string): (r: Option<TimeEntry>)
    ensures r.None? <==> forall i :: 0 <= i < |es| ==> es[i].id != id
    ensures r.Some? ==> exists i :: 0 <= i < |es| && es[i] == r.value && r.value.id == id &&
                                    forall j :: 0 <= j < i ==> es[j].id != id
  {
    if es == [] then None
    else if es[0].id == id then Some(es[0])
    else
      var r := FindById(es[1..], id);
      assert forall i :: 0 < i < |es| ==> es[i] == es[1..][i - 1];
      r
  }

  /** `entries.map(entry => entry.id === id ? f(entry) : entry)`. */
  function UpdateWhere(es: seq<TimeEntry>, id: string, f: TimeEntry -> TimeEntry): (r: seq<TimeEntry>)
    ensures |r| == |es|
    ensures forall i :: 0 <= i < |es| ==> r[i] == (if es[i].id == id then f(es[i]) else es[i])
  {
    if es == [] then []
    else [if es[0].id == id then f(es[0]) else es[0]] + UpdateWhere(es[1..], id, f)
  }

  /** An update that keeps the running flag keeps the running count. */
  lemma {:induction false} UpdateKeepsRunningCount(es: seq<TimeEntry>, id: string, f: TimeEntry -> TimeEntry)
    requires forall e :: f(e).isRunning == e.isRunning
    ensures RunningCount(UpdateWhere(es, id, f)) == RunningCount(es)
  {
    if es != [] {
      UpdateKeepsRunningCount(es[1..], id, f);
      assert UpdateWhere(es, id, f)[1..] == UpdateWhere(es[1..], id, f);
    }
  }

  /** An update that never sets the running flag cannot raise the count. */
  lemma {:induction false} UpdateNeverAddsRunning(es: seq<TimeEntry>, id: string, f: TimeEntry -> TimeEntry)
    requires forall e :: f(e).isRunning ==> e.isRunning
    ensures RunningCount(UpdateWhere(es, id, f)) <= RunningCount(es)
  {
    if es != [] {
      UpdateNeverAddsRunning(es[1..], id, f);
      assert UpdateWhere(es, id, f)[1..] == UpdateWhere(es[1..], id, f);
    }
  }

  /** Resuming: the matching entries are marked running and restarted at `now`. */
  function ResumeEntries(es: seq<TimeEntry>, id: string, now: string): (r: seq<TimeEntry>)
    ensures |r| == |es|
    ensures forall i :: 0 <= i < |es| && es[i].id == id ==>
              r[i].isRunning && r[i].startTime == now &&
              r[i].(isRunning := es[i].isRunning, startTime := es[i].startTime) == es[i]
    ensures forall i :: 0 <= i < |es| && es[i].id != id ==> r[i] == es[i]
  {
    UpdateWhere(es, id, (e: TimeEntry) => e.(isRunning := true, startTime := now))
  }

  /** Resuming an entry that is present leaves some entry running. */
  lemma ResumeRuns(es: seq<TimeEntry>, id: string, now: string, k: nat)
    requires k < |es| && es[k].id == id
    ensures AnyRunning(ResumeEntries(es, id, now))
  {
  }

  /** Resuming does not consult the other entries: with one entry already
      running, resuming another leaves two running. */
  lemma ResumeCanRunTwo()
    ensures var es := [TimeEntry("a", "Alpha", "9:00", "", "00:00:00", true, 0),
                       TimeEntry("b", "Beta", "8:00", "8:30", "00:30:00", false, 0)];
            RunningCount(es) == 1 && RunningCount(ResumeEntries(es, "b", "10:00")) == 2
  {
  }

  /** Stopping: the matching entries end at `now`, are no longer running and
      take `duration` (the display before it was reset). */
  function StopEntries(es: seq<TimeEntry>, id: string, now: string, duration: string): (r: seq<TimeEntry>)
    ensures |r| == |es|
    ensures forall i :: 0 <= i < |es| && es[i].id == id ==>
              !r[i].isRunning && r[i].endTime == now && r[i].duration == duration &&
              r[i].(isRunning := es[i].isRunning, endTime := es[i].endTime, duration := es[i].duration) == es[i]
    ensures forall i :: 0 <= i < |es| && es[i].id != id ==> r[i] == es[i]
  {
    UpdateWhere(es, id, (e: TimeEntry) => e.(endTime := now, isRunning := false, duration := duration))
  }

  lemma StopNeverAddsRunning(es: seq<TimeEntry>, id: string, now: string, duration: string)
    ensures RunningCount(StopEntries(es, id, now, duration)) <= RunningCount(es)
  {
    UpdateNeverAddsRunning(es, id, (e: TimeEntry) => e.(endTime := now, isRunning := false, duration := duration));
  }

  /** Stopping the id of every running entry leaves none running. */
  lemma StopClearsRunning(es: seq<TimeEntry>, id: string, now: string, duration: string)
    requires forall i :: 0 <= i < |es| && es[i].isRunning ==> es[i].id == id
    ensures !AnyRunning(StopEntries(es, id, now, duration))
  {
  }

  /** `entries.map(entry => entry.id === updated.id ? updated : entry)`. */
  function ReplaceEntries(es: seq<TimeEntry>, updated: TimeEntry): (r: seq<TimeEntry>)
    ensures |r| == |es|
    ensures forall i :: 0 <= i < |es| ==> r[i] == (if es[i].id == updated.id then updated else es[i])
  {
    UpdateWhere(es, updated.id, (e: TimeEntry) => updated)
  }

  /** With distinct ids, replacing an entry by one with the same running flag
      keeps the running count. */
  lemma {:induction false} ReplaceKeepsRunningCount(es: seq<TimeEntry>, k: nat, updated: TimeEntry)
    requires k < |es| && es[k].id == updated.id && updated.isRunning == es[k].isRunning
    requires forall i, j :: 0 <= i < j < |es| ==> es[i].id != es[j].id
    ensures RunningCount(ReplaceEntries(es, updated)) == RunningCount(es)
  {
    var r := ReplaceEntries(es, updated);
    if k == 0 {
      forall i | 0 <= i < |es[1..]|
        ensures es[1..][i].id != updated.id
      {
        assert es[1..][i] == es[i + 1];
      }
      ReplaceAbsent(es[1..], updated);
      assert r[1..] == ReplaceEntries(es[1..], updated);
    } else {
      assert es[1..][k - 1] == es[k];
      ReplaceKeepsRunningCount(es[1..], k - 1, updated);
      assert es[0].id != updated.id;
      assert r[1..] == ReplaceEntries(es[1..], updated);
    }
  }

  lemma ReplaceAbsent(es: seq<TimeEntry>, updated: TimeEntry)
    requires forall i :: 0 <= i < |es| ==> es[i].id != updated.id
    ensures ReplaceEntries(es, updated) == es
  {
  }

  /** `entries.filter(entry => entry.id !== id)`. */
  function RemoveEntries(es: seq<TimeEntry>, id: string): (r: seq<TimeEntry>)
    ensures forall e :: e in r <==> e in es && e.id != id
    ensures |r| == |set i | 0 <= i < |es| && es[i].id != id|
  {
    var keep := (e: TimeEntry) => e.id != id;
    FilterLength(es, keep);
    assert Positions(es, keep) == set i | 0 <= i < |es| && es[i].id != id;
    Filter(es, keep)
  }

  /** Deleting keeps the other entries in their order. */
  lemma RemoveKeepsOrder(es: seq<TimeEntry>, id: string)
    ensures IsSubsequence(RemoveEntries(es, id), es)
  {
    FilterIsSubsequence(es, (e: TimeEntry) => e.id != id);
  }

  /** Deleting an id that is absent changes nothing. */
  lemma RemoveAbsent(es: seq<TimeEntry>, id: string)
    requires forall i :: 0 <= i < |es| ==> es[i].id != id
    ensures RemoveEntries(es, id) == es
  {
    FilterKeepsAll(es, (e: TimeEntry) => e.id != id);
  }

  lemma {:induction false} RemoveNeverAddsRunning(es: seq<TimeEntry>, id: string)
    ensures RunningCount(RemoveEntries(es, id)) <= RunningCount(es)
  {
    if es != [] {
      RemoveNeverAddsRunning(es[1..], id);
    }
  }

  /** `entries.map(entry => entry.id === id ? { ...entry, count: entry.count + 1 } : entry)`. */
  function IncrementEntries(es: seq<TimeEntry>, id: string): (r: seq<TimeEntry>)
    ensures |r| == |es|
    ensures forall i :: 0 <= i < |es| && es[i].id == id ==>
              r[i].count == es[i].count + 1 && r[i].(count := es[i].count) == es[i]
    ensures forall i :: 0 <= i < |es| && es[i].id != id ==> r[i] == es[i]
  {
    UpdateWhere(es, id, (e: TimeEntry) => e.(count := e.count + 1))
  }

  lemma IncrementKeepsRunningCount(es: seq<TimeEntry>, id: string)
    ensures RunningCount(IncrementEntries(es, id)) == RunningCount(es)
  {
    UpdateKeepsRunningCount(es, id, (e: TimeEntry) => e.(count := e.count + 1));
  }
}
