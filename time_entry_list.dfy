/** The time-entry list component: the entries, the global running flag, the
    `HH:MM:SS` display and the selected project, with the handlers that start,
    stop, save, delete and count entries. Remote calls are represented by the
    requests the component issues and, where the component looks at it, by
    their outcome as a parameter; "now" is a parameter too. */
module TimeTracking {
  import opened Sequences
  import opened TimerText
  import opened Entries

  /** The outcome of a remote write: it resolved or it threw. */
  datatype Remote = Succeeded | Failed

  /** The outcome of the create call: it threw, or it returned a record. */
  datatype CreateResult = CreateFailed | Created(record: Fetched)

  /** A write request sent to the server. */
  datatype Request =
    | CreateRequest(entry: TimeEntry)
    | UpdateRequest(id: string, entry: TimeEntry)
    | DeleteRequest(id: string)

  /** Why a start was refused (the alert the user sees). */
  datatype StartError = NoProjectSelected | TimerAlreadyRunning

  /** JavaScript truthiness of an optional string: present and non-empty.
      The falsy values of a `string | null` are `null` and `''`. */
  predicate Truthy(s: Option<string>)
    ensures !Truthy(s) <==> s == None || s == Some("")
  {
    s.Some? && s.value != ""
  }

  /** The two guards of a start: a project or an entry is needed, and a
      fresh start is refused while any entry is running. */
  function CheckStart(selected: Option<string>, entryId: Option<string>, es: seq<TimeEntry>): (r: Option<StartError>)
    ensures r == Some(NoProjectSelected) <==> !Truthy(selected) && !Truthy(entryId)
    ensures r == Some(TimerAlreadyRunning) <==>
              Truthy(selected) && !Truthy(entryId) && exists i :: 0 <= i < |es| && es[i].isRunning
    ensures r == None <==>
              Truthy(entryId) || (Truthy(selected) && forall i :: 0 <= i < |es| ==> !es[i].isRunning)
  {
    if !Truthy(selected) && !Truthy(entryId) then Some(NoProjectSelected)
    else if !Truthy(entryId) && AnyRunning(es) then Some(TimerAlreadyRunning)
    else None
  }

  /** The entry a fresh start sends to the server. Its id is the ISO time of
      the start and its duration the display at that moment. */
  function NewEntry(selected: Option<string>, nowIso: string, nowTime: string, timer: string): (e: TimeEntry)
    ensures e.id == nowIso && e.startTime == nowTime && e.endTime == "" && e.duration == timer
    ensures e.isRunning && e.count == 0
    ensures e.projectName == (if Truthy(selected) then selected.value else "Unnamed Project")
  {
    TimeEntry(nowIso, if Truthy(selected) then selected.value else "Unnamed Project", nowTime, "", timer, true, 0)
  }

  /** The entry a create appends: the returned record, when it has a
      non-empty id. */
  function Pushed(created: CreateResult): (r: seq<TimeEntry>)
    ensures |r| <= 1
    ensures r != [] <==> created.Created? && created.record.WithId? && created.record.entry.id != ""
    ensures r != [] ==> r[0] == created.record.entry
  {
    match created
    case Created(WithId(e)) => if e.id != "" then [e] else []
    case _ => []
  }

  /** The update request issued for the entry found by id, if one was found. */
  function UpdateFor(found: Option<TimeEntry>): (r: seq<Request>)
    ensures |r| <= 1
    ensures r != [] <==> found.Some?
    ensures r != [] ==> r[0] == UpdateRequest(found.value.id, found.value)
  {
    if found.Some? then [UpdateRequest(found.value.id, found.value)] else []
  }

  class TimeEntryList {
    var entries: seq<TimeEntry>
    var isRunning: bool
    var timer: string
    var selectedProject: Option<string>
    /** The entry the edit form was opened on. */
    var currentEntry: Option<TimeEntry>
    /** The write requests issued so far, oldest first. */
    var requests: seq<Request>
    /** The seconds the display has counted since it was last reset. */
    ghost var elapsed: nat

    /** The display always shows the seconds counted since the last reset. */
    ghost predicate Valid()
      reads this
    {
      timer == Display(elapsed)
    }

    /** At most one entry is marked running. */
    ghost predicate AtMostOneRunning()
      reads this
    {
      RunningCount(entries) <= 1
    }

    constructor()
      ensures Valid() && elapsed == 0
      ensures entries == [] && !isRunning && timer == Zero && selectedProject == None
      ensures currentEntry == None && requests == []
    {
      entries := [];
      isRunning := false;
      timer := Zero;
      selectedProject := None;
      currentEntry := None;
      requests := [];
      elapsed := 0;
    }

    /** The initial fetch: on success the list becomes the fetched records
        that have an id; a failed fetch leaves the list as it was. */
    method Load(fetched: Option<seq<Fetched>>)
      modifies this`entries
      ensures fetched.Some? ==> entries == ValidEntries(fetched.value)
      ensures fetched.None? ==> entries == old(entries)
    {
      if fetched.Some? {
        entries := ValidEntries(fetched.value);
      }
    }

    /** The display shows the rendering of the seconds counted, so a stop
        records that rendering as the duration. */
    lemma ShowsElapsed()
      requires Valid()
      ensures timer == Format(FromSeconds(elapsed))
    {
      DisplayIsFormat(elapsed);
    }

    /** One second of the interval that runs while the flag is set. */
    method Tick()
      requires Valid() && isRunning
      modifies this`timer, this`elapsed
      ensures Valid() && elapsed == old(elapsed) + 1
      ensures WellFormed(old(timer)) && timer == TimerText.Tick(old(timer))
    {
      DisplayTicks(elapsed);
      timer := TimerText.Tick(timer);
      elapsed := elapsed + 1;
    }

    method SelectProject(name: string)
      modifies this`selectedProject
      ensures selectedProject == Some(name)
    {
      selectedProject := Some(name);
    }

    /** Start a timer: resume the entry `entryId` names, or create a fresh
        entry for the selected project. The display is left as it is. A
        failed resume update is only logged, so `updated` changes nothing. */
    method Start(entryId: Option<string>, nowTime: string, nowIso: string, created: CreateResult, updated: Remote)
      returns (error: Option<StartError>)
      modifies this`entries, this`isRunning, this`requests
      ensures error == CheckStart(selectedProject, entryId, old(entries))
      ensures error.Some? ==>
                entries == old(entries) && isRunning == old(isRunning) && requests == old(requests)
      ensures error.None? ==> isRunning
      ensures error.None? && Truthy(entryId) ==>
                entries == ResumeEntries(old(entries), entryId.value, nowTime) &&
                requests == old(requests) + UpdateFor(FindById(entries, entryId.value))
      ensures error.None? && !Truthy(entryId) ==>
                entries == old(entries) + Pushed(created) &&
                requests == old(requests) + [CreateRequest(NewEntry(selectedProject, nowIso, nowTime, timer))] &&
                AtMostOneRunning()
    {
      error := CheckStart(selectedProject, entryId, entries);
      if error.Some? {
        return;
      }
      var next := entries;
      if Truthy(entryId) {
        next := ResumeEntries(next, entryId.value, nowTime);
        requests := requests + UpdateFor(FindById(next, entryId.value));
      } else {
        requests := requests + [CreateRequest(NewEntry(selectedProject, nowIso, nowTime, timer))];
        RunningCountAppend(next, Pushed(created));
        next := next + Pushed(created);
      }
      isRunning := true;
      entries := next;
    }

    /** Stop the timer: the entries with `entryId` end at `nowTime` and keep
        the display's value as their duration; the display, the flag and the
        selection are reset even when no entry has that id. A failed update
        is only logged, so `updated` changes nothing. */
    method Stop(entryId: string, nowTime: string, updated: Remote)
      requires Valid()
      modifies this`entries, this`isRunning, this`timer, this`elapsed, this`selectedProject, this`requests
      ensures Valid() && elapsed == 0
      ensures !isRunning && timer == Zero && selectedProject == None
      ensures entries == StopEntries(old(entries), entryId, nowTime, old(timer))
      ensures requests == old(requests) + UpdateFor(FindById(entries, entryId))
      ensures RunningCount(entries) <= RunningCount(old(entries))
    {
      var duration := timer;
      isRunning := false;
      timer := Zero;
      elapsed := 0;
      StopNeverAddsRunning(entries, entryId, nowTime, duration);
      entries := StopEntries(entries, entryId, nowTime, duration);
      selectedProject := None;
      requests := requests + UpdateFor(FindById(entries, entryId));
    }

    /** Open the edit form on the first entry with the id, if there is one. */
    method Edit(entryId: string)
      modifies this`currentEntry
      ensures FindById(entries, entryId).Some? ==> currentEntry == FindById(entries, entryId)
      ensures FindById(entries, entryId).None? ==> currentEntry == old(currentEntry)
    {
      var found := FindById(entries, entryId);
      if found.Some? {
        currentEntry := found;
      }
    }

    /** Save an edited entry: the list changes only when the update succeeds. */
    method Save(updated: TimeEntry, outcome: Remote)
      modifies this`entries, this`requests
      ensures requests == old(requests) + [UpdateRequest(updated.id, updated)]
      ensures outcome == Succeeded ==> entries == ReplaceEntries(old(entries), updated)
      ensures outcome == Failed ==> entries == old(entries)
    {
      requests := requests + [UpdateRequest(updated.id, updated)];
      if outcome == Succeeded {
        entries := ReplaceEntries(entries, updated);
      }
    }

    /** Delete the entries with an id: the list changes only when the delete
        succeeds. */
    method Delete(entryId: string, outcome: Remote)
      modifies this`entries, this`requests
      ensures requests == old(requests) + [DeleteRequest(entryId)]
      ensures outcome == Succeeded ==> entries == RemoveEntries(old(entries), entryId)
      ensures outcome == Failed ==> entries == old(entries)
      ensures RunningCount(entries) <= RunningCount(old(entries))
    {
      requests := requests + [DeleteRequest(entryId)];
      if outcome == Succeeded {
        RemoveNeverAddsRunning(entries, entryId);
        entries := RemoveEntries(entries, entryId);
      }
    }

    /** Raise the count of the entries with an id; nothing is sent. */
    method IncrementCount(entryId: string)
      modifies this`entries
      ensures entries == IncrementEntries(old(entries), entryId)
      ensures RunningCount(entries) == RunningCount(old(entries))
    {
      IncrementKeepsRunningCount(entries, entryId);
      entries := IncrementEntries(entries, entryId);
    }
  }

  /** A session on a fresh list: select a project, start, let a second pass,
      then try a second fresh start. The second start is refused and the
      display shows one second. */
  method SecondFreshStartIsRefused() returns (error: Option<StartError>, display: string, running: nat)
    ensures error == Some(TimerAlreadyRunning)
    ensures display == "00:00:01"
    ensures running == 1
  {
    var list := new TimeEntryList();
    list.SelectProject("Website");
    var entry := NewEntry(Some("Website"), "2024-05-01T09:00:00.000Z", "09:00:00", Zero);
    var first := list.Start(None, "09:00:00", "2024-05-01T09:00:00.000Z", Created(WithId(entry)), Succeeded);
    assert list.entries == [entry];
    assert first.None?;
    list.Tick();
    TickFromZero();
    error := list.Start(None, "09:00:01", "2024-05-01T09:00:01.000Z", Created(WithId(entry)), Succeeded);
    display := list.timer;
    running := RunningCount(list.entries);
  }

  /** A fresh start whose create call throws still raises the flag, while no
      entry is marked running. */
  method FailedCreateRunsNoEntry() returns (flag: bool, running: nat)
    ensures flag && running == 0
  {
    var list := new TimeEntryList();
    list.SelectProject("Website");
    var error := list.Start(None, "09:00:00", "2024-05-01T09:00:00.000Z", CreateFailed, Succeeded);
    flag := list.isRunning;
    running := RunningCount(list.entries);
  }

  /** A timer started and stopped for "Alpha" on a fresh list: one entry,
      not running, is left. */
  method AlphaStartedAndStopped() returns (list: TimeEntryList, stopped: TimeEntry)
    ensures fresh(list) && list.Valid()
    ensures list.entries == [stopped] && !stopped.isRunning && stopped.id == "alpha"
  {
    list := new TimeEntryList();
    list.SelectProject("Alpha");
    var alpha := NewEntry(Some("Alpha"), "alpha", "09:00:00", Zero);
    var error := list.Start(None, "09:00:00", "alpha", Created(WithId(alpha)), Succeeded);
    assert list.entries == [alpha];
    list.Stop(alpha.id, "09:30:00", Succeeded);
    stopped := alpha.(endTime := "09:30:00", isRunning := false, duration := Zero);
    assert list.entries == [stopped];
  }

  /** Two runs through the handlers: start and stop a timer for one
      project, start one for another, then resume the first entry. The
      resume is accepted and leaves two entries running. */
  method ResumeRunsTwo() returns (running: nat)
    ensures running == 2
  {
    var list, stopped := AlphaStartedAndStopped();
    list.SelectProject("Beta");
    var beta := NewEntry(Some("Beta"), "beta", "10:00:00", Zero);
    var error := list.Start(None, "10:00:00", "beta", Created(WithId(beta)), Succeeded);
    assert list.entries == [stopped, beta];
    error := list.Start(Some("alpha"), "11:00:00", "resume", CreateFailed, Succeeded);
    var resumed := stopped.(isRunning := true, startTime := "11:00:00");
    assert list.entries == [resumed, beta];
    RunningCountAppend([resumed], [beta]);
    running := RunningCount(list.entries);
  }
}
