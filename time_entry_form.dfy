/** The edit form of one time entry: three editable fields initialised from
    the entry, and the save handler that merges them back into it. */
module EntryForm {
  import opened Entries

  /** The values held by the form's three inputs. */
  datatype Fields = Fields(projectName: string, startTime: string, endTime: string)

  /** The inputs as the form opens on `e`. */
  function InitialFields(e: TimeEntry): Fields {
    Fields(e.projectName, e.startTime, e.endTime)
  }

  /** The saved entry: `e` with the three edited fields overwritten. */
  function Merge(e: TimeEntry, f: Fields): (r: TimeEntry)
    ensures r.projectName == f.projectName && r.startTime == f.startTime && r.endTime == f.endTime
    ensures r.id == e.id && r.duration == e.duration && r.isRunning == e.isRunning && r.count == e.count
  {
    e.(projectName := f.projectName, startTime := f.startTime, endTime := f.endTime)
  }

  /** The callbacks the save handler invokes, in order. */
  datatype Callback = OnSave(entry: TimeEntry) | OnClose

  function HandleSave(e: TimeEntry, f: Fields): (calls: seq<Callback>)
    ensures |calls| == 2 && calls[0].OnSave? && calls[1] == OnClose
    ensures calls[0].entry.projectName == f.projectName
    ensures calls[0].entry.startTime == f.startTime && calls[0].entry.endTime == f.endTime
    ensures calls[0].entry.(projectName := e.projectName, startTime := e.startTime, endTime := e.endTime) == e
  {
    [OnSave(Merge(e, f)), OnClose]
  }

  /** Saving without editing gives back the original entry. */
  lemma UneditedSaveIsIdentity(e: TimeEntry)
    ensures Merge(e, InitialFields(e)) == e
  {
  }

  /** Reopening the form on the saved entry shows the saved values. */
  lemma ReopenShowsSaved(e: TimeEntry, f: Fields)
    ensures InitialFields(Merge(e, f)) == f
  {
  }

  /** Saving the same values twice is the same as saving them once. */
  lemma MergeIdempotent(e: TimeEntry, f: Fields)
    ensures Merge(Merge(e, f), f) == Merge(e, f)
  {
  }

  /** A later save overrides an earlier one completely. */
  lemma MergeLastWins(e: TimeEntry, f: Fields, g: Fields)
    ensures Merge(Merge(e, f), g) == Merge(e, g)
  {
  }

  /** Saving an edited entry back into a list with distinct ids does not
      change how many entries are running. */
  lemma SaveEditKeepsRunningCount(es: seq<TimeEntry>, k: nat, f: Fields)
    requires k < |es|
    requires forall i, j :: 0 <= i < j < |es| ==> es[i].id != es[j].id
    ensures RunningCount(ReplaceEntries(es, Merge(es[k], f))) == RunningCount(es)
  {
    ReplaceKeepsRunningCount(es, k, Merge(es[k], f));
  }
}
