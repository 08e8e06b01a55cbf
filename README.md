# Trackify time tracking: a Dafny model

Trackify's front end lets a user pick a project, start a timer against it,
stop it, and keep a log of time entries that are mirrored to a server. This
project models the engine behind that screen, in six modules:

- `TimeTracking` (`time_entry_list.dfy`): the time-entry list component as the
  class `TimeEntryList`. Its fields are the entries, the global running flag,
  the `HH:MM:SS` display, the selected project, the entry the edit form is
  open on, and the log of write requests sent to the server. Its handlers
  load, start (fresh or resume), tick, stop, edit, save, delete and count
  entries. Remote outcomes and "now" strings are parameters.
- `TimerText` (`timer_text.dfy`): the one-second tick on the display string.
  It splits on `:`, reads three numbers, carries seconds into minutes and
  minutes into hours, and zero-pads each field to two digits. The module
  proves that a tick adds exactly one second and that reading a formatted
  timer gives its value back.
- `Entries` (`entries.dfy`): the `TimeEntry` record and the `map`, `filter`,
  `find` and `some` expressions the handlers apply to the list. The stop,
  save, delete and count updates each come with their effect on the number
  of running entries. The resume update comes with `ResumeRuns` and with
  the example `ResumeCanRunTwo`.
- `EntryForm` (`time_entry_form.dfy`): the edit form's three-field merge and
  its callbacks.
- `ProjectPicker` (`project_modal.dfy`): the case-insensitive project search
  and the task count per project.
- `Sequences` (`sequences.dfy`): `Option`, and `filter` with its
  order-preserving subsequence property.

The display is tied to a count of seconds by a class invariant. `Valid()`
says the display is `Display(elapsed)`, the string reached by `elapsed`
ticks from `"00:00:00"`. `TimerText.DisplayIsFormat` proves that this string
is the canonical `HH:MM:SS` rendering of `elapsed` seconds.

The two guards of a fresh start are a selected project and no running entry.
Together they keep "at most one entry running" for fresh starts: `Start`
ensures `AtMostOneRunning()` after a fresh start. Resuming an entry does not
look at the other entries, so that property does not survive a resume.
`Entries.ResumeCanRunTwo` gives a list where a resume leaves two entries
running, and `TimeTracking.ResumeRunsTwo` reaches such a list through the
component's own handlers.

`handleSave` and `handleDelete` change the list only after the remote call
resolves, and only when it succeeds. Resume applies its local update once
the update call has settled, whatever its outcome. Stop applies its update
before the call is made. A failed update is only logged in both cases.
`Start` and `Stop` therefore take the update outcome as a parameter that
their contracts show has no effect.

## Model

| member | source | states |
|---|---|---|
| TimerText.Advance | src/components/TimeTracking/TimeEntryList.tsx:46-48 | the carried value denotes one second more than its input, has minutes and seconds below 60, and never has fewer hours (no wrap at 24 or 100) |
| TimerText.AdvanceIsNext | src/components/TimeTracking/TimeEntryList.tsx:46-48 | on a timer with minutes and seconds below 60 the floor-division carry is the plain next second (seconds, else minutes, else hours roll over) |
| TimerText.FromSeconds | src/components/TimeTracking/TimeEntryList.tsx:46-48 | the reference timer for n seconds has minutes and seconds below 60 and denotes exactly n seconds |
| TimerText.CanonicalUnique | src/components/TimeTracking/TimeEntryList.tsx:46-48 | two timers with minutes and seconds below 60 that denote the same seconds are equal |
| TimerText.DecimalRoundTrip | src/components/TimeTracking/TimeEntryList.tsx:45-49 | `Number(String(n))` is n: `DecimalString` (`String`) gives a numeral whose `DecimalValue` (`Number`) is n |
| TimerText.PadStart | src/components/TimeTracking/TimeEntryList.tsx:49 | `padStart` leaves a string of at least the width alone and otherwise prefixes exactly the missing number of fill characters |
| TimerText.FieldRoundTrip | src/components/TimeTracking/TimeEntryList.tsx:49 | a field printed by `Field` (`String(n).padStart(2, '0')`) has at least two digits and reads back as its number, leading zeros included |
| TimerText.FieldBelowHundred | src/components/TimeTracking/TimeEntryList.tsx:49 | a number below 100 prints as exactly its tens digit and its units digit |
| TimerText.SplitAfterPiece | src/components/TimeTracking/TimeEntryList.tsx:45 | `split` of a piece without the separator, the separator and a rest gives that piece followed by the split of the rest |
| TimerText.SplitLastPiece | src/components/TimeTracking/TimeEntryList.tsx:45 | `split` of a string without the separator is that one piece |
| TimerText.ParseFields | src/components/TimeTracking/TimeEntryList.tsx:45 | `Parse` (`split(':').map(Number)` destructured) reads three digit fields joined by `:` as their three values |
| TimerText.ParseIgnoresExtraFields | src/components/TimeTracking/TimeEntryList.tsx:45 | destructuring takes the first three fields of the split: anything after a third `:` is ignored |
| TimerText.ParseFormat | src/components/TimeTracking/TimeEntryList.tsx:45-49 | `Parse` after `Format` (the template of line 49) gives back the same hours, minutes and seconds |
| TimerText.TickAddsOneSecond | src/components/TimeTracking/TimeEntryList.tsx:44-50 | a tick of a readable display is readable again and denotes one second more, with minutes and seconds below 60 and hours not decreasing, printed in the updater's own format |
| TimerText.Tick | src/components/TimeTracking/TimeEntryList.tsx:44-50 | the updater's result reads back as the carried value of the display it was given |
| TimerText.TickCounts | src/components/TimeTracking/TimeEntryList.tsx:44-50 | ticking the display of k-1 seconds shows k seconds |
| TimerText.TickFromTo | src/components/TimeTracking/TimeEntryList.tsx:44-50 | ticking the display of a timer shows the timer one second later |
| TimerText.TickCarriesMinute | src/components/TimeTracking/TimeEntryList.tsx:44-50 | `00:00:59` ticks to `00:01:00` |
| TimerText.TickCarriesHour | src/components/TimeTracking/TimeEntryList.tsx:44-50 | `00:59:59` ticks to `01:00:00` |
| TimerText.TickPastNinetyNineHours | src/components/TimeTracking/TimeEntryList.tsx:44-50 | `99:59:59` ticks to `100:00:00`: hours grow past two digits and never wrap |
| TimerText.TickFromZero | src/components/TimeTracking/TimeEntryList.tsx:20 | the initial display `00:00:00` ticks to `00:00:01` |
| TimerText.ZeroIsNoSeconds | src/components/TimeTracking/TimeEntryList.tsx:20 | the initial and reset display `00:00:00` is the rendering of zero seconds |
| TimerText.TwoMinutesFiveSeconds | src/components/TimeTracking/TimeEntryList.tsx:44-50 | the display after 125 seconds, which a stop takes as the duration, is `00:02:05` |
| TimerText.DisplayIsFormat | src/components/TimeTracking/TimeEntryList.tsx:44-50 | `Display(n)`, the display after n applications of the updater (`Updater`) from `00:00:00`, is the rendering of n seconds |
| TimerText.DisplayTicks | src/components/TimeTracking/TimeEntryList.tsx:44-50 | every display reached from a reset is readable, and `Tick` of it is the display one tick later, so `Updater` agrees with `Tick` there |
| Entries.ValidEntries | src/components/TimeTracking/TimeEntryList.tsx:30 | the loaded list holds exactly the fetched records that have an id, and is no longer than the fetched list |
| Entries.ValidEntriesAppend | src/components/TimeTracking/TimeEntryList.tsx:30 | the load filter keeps order: filtering a concatenation concatenates the filtered parts |
| Entries.ValidEntriesSingle | src/components/TimeTracking/TimeEntryList.tsx:30 | one fetched record is kept exactly when it has an id; with `ValidEntriesAppend` this fixes the load filter on every list |
| Entries.AnyRunning | src/components/TimeTracking/TimeEntryList.tsx:77 | `some(entry => entry.isRunning)` holds exactly when some entry is running |
| Entries.RunningCount | src/components/TimeTracking/TimeEntryList.tsx:77 | the number of running entries is at most the length and is 0 exactly when no entry is running |
| Entries.RunningCountAppend | src/components/TimeTracking/TimeEntryList.tsx:95 | appending adds the running counts |
| Entries.FreshStartRunsOne | src/components/TimeTracking/TimeEntryList.tsx:77-95 | appending one running entry to a list with none running leaves exactly one running |
| Entries.FindById | src/components/TimeTracking/TimeEntryList.tsx:129 | `find` by id is absent exactly when no entry has the id, and otherwise is the first entry that has it |
| Entries.UpdateWhere | src/components/TimeTracking/TimeEntryList.tsx:163-165 | the id-selected `map` keeps the length, updates every entry with the id and leaves the others as they were |
| Entries.UpdateKeepsRunningCount | src/components/TimeTracking/TimeEntryList.tsx:163-165 | an update that keeps the running flag keeps the number of running entries |
| Entries.UpdateNeverAddsRunning | src/components/TimeTracking/TimeEntryList.tsx:111-113 | an update that never sets the running flag never raises the number of running entries |
| Entries.ResumeEntries | src/components/TimeTracking/TimeEntryList.tsx:65-67 | every entry with the id becomes running with the new start time and keeps its other fields; the other entries and the length are unchanged |
| Entries.ResumeRuns | src/components/TimeTracking/TimeEntryList.tsx:65-67 | resuming an id that is present leaves some entry running |
| Entries.ResumeCanRunTwo | src/components/TimeTracking/TimeEntryList.tsx:64-75 | a resume while another entry runs leaves two entries running: the resume path does not keep at most one running |
| Entries.StopEntries | src/components/TimeTracking/TimeEntryList.tsx:111-113 | every entry with the id stops, ends now and takes the given duration, keeping its other fields; the other entries and the length are unchanged |
| Entries.StopNeverAddsRunning | src/components/TimeTracking/TimeEntryList.tsx:111-113 | a stop never raises the number of running entries |
| Entries.StopClearsRunning | src/components/TimeTracking/TimeEntryList.tsx:111-113 | when only entries with the id are running, none runs after the stop |
| Entries.ReplaceEntries | src/components/TimeTracking/TimeEntryList.tsx:139-141 | every entry with the updated entry's id becomes the updated entry, in place; the others and the length are unchanged |
| Entries.ReplaceKeepsRunningCount | src/components/TimeTracking/TimeEntryList.tsx:139-141 | with unique ids, replacing an entry by one with the same running flag keeps the number of running entries |
| Entries.ReplaceAbsent | src/components/TimeTracking/TimeEntryList.tsx:139-141 | replacing by an id no entry has leaves the list unchanged |
| Entries.RemoveEntries | src/components/TimeTracking/TimeEntryList.tsx:151 | the remaining entries are exactly the old ones whose id differs, one for each position holding such an entry (duplicates stay) |
| Entries.RemoveKeepsOrder | src/components/TimeTracking/TimeEntryList.tsx:151 | the remaining entries are in their old order |
| Entries.RemoveAbsent | src/components/TimeTracking/TimeEntryList.tsx:151 | deleting an id no entry has leaves the list unchanged |
| Entries.RemoveNeverAddsRunning | src/components/TimeTracking/TimeEntryList.tsx:151 | a delete never raises the number of running entries |
| Entries.IncrementEntries | src/components/TimeTracking/TimeEntryList.tsx:163-165 | every entry with the id has its count raised by exactly one and keeps its other fields; the other entries and the length are unchanged |
| Entries.IncrementKeepsRunningCount | src/components/TimeTracking/TimeEntryList.tsx:163-165 | counting keeps the number of running entries |
| EntryForm.Merge | src/components/TimeTracking/TimeEntryForm.tsx:25-30 | the saved entry takes project name, start and end from the form and id, duration, running flag and count from the original |
| EntryForm.HandleSave | src/components/TimeTracking/TimeEntryForm.tsx:24-33 | exactly two callbacks: `onSave` with the merged entry, then `onClose`; the saved entry differs from the original only in the three form fields |
| EntryForm.UneditedSaveIsIdentity | src/components/TimeTracking/TimeEntryForm.tsx:20-30 | saving the form as `InitialFields` opened it (the `useState` initial values) gives back the original entry |
| EntryForm.ReopenShowsSaved | src/components/TimeTracking/TimeEntryForm.tsx:20-30 | `InitialFields` of a saved entry are the fields that were saved |
| EntryForm.MergeIdempotent | src/components/TimeTracking/TimeEntryForm.tsx:25-30 | applying the same three fields twice is applying them once |
| EntryForm.MergeLastWins | src/components/TimeTracking/TimeEntryForm.tsx:25-30 | two saves in a row give the result of the second alone |
| EntryForm.SaveEditKeepsRunningCount | src/components/TimeTracking/TimeEntryForm.tsx:25-30 | with unique ids, saving a form edit into the list keeps the number of running entries |
| ProjectPicker.Lower | src/components/TimeTracking/ProjectModal.tsx:42 | `toLowerCase` keeps the length and lowers each character in place |
| ProjectPicker.LowerChar | src/components/TimeTracking/ProjectModal.tsx:42 | a lowered character is never an upper-case letter, changes exactly when it was one, and keeps its place in the alphabet |
| ProjectPicker.LowerHasNoUpper | src/components/TimeTracking/ProjectModal.tsx:42 | a lowered string has no upper-case letter |
| ProjectPicker.LowerIdempotent | src/components/TimeTracking/ProjectModal.tsx:42 | lowering twice is lowering once |
| ProjectPicker.Includes | src/components/TimeTracking/ProjectModal.tsx:42 | `includes` holds exactly when the term occurs in the string as a contiguous piece |
| ProjectPicker.ShiftOccurrence | src/components/TimeTracking/ProjectModal.tsx:42 | the occurrences in a string's tail are its later occurrences shifted by one |
| ProjectPicker.SubstringTransitive | src/components/TimeTracking/ProjectModal.tsx:42 | a piece of a piece of a string is a piece of the string |
| ProjectPicker.LowerSubstring | src/components/TimeTracking/ProjectModal.tsx:42 | lowering keeps a contained piece contained |
| ProjectPicker.Matches | src/components/TimeTracking/ProjectModal.tsx:42 | the filter callback holds exactly when the lowered term occurs in the lowered name |
| ProjectPicker.FilterProjects | src/components/TimeTracking/ProjectModal.tsx:42 | a project is shown exactly when its lowered name contains the lowered term, once for each position holding a matching project |
| ProjectPicker.FilterKeepsOrder | src/components/TimeTracking/ProjectModal.tsx:42 | the shown projects are in their fetched order |
| ProjectPicker.EmptyTermKeepsAll | src/components/TimeTracking/ProjectModal.tsx:35-42 | the empty term shows every project, as the unfiltered list set when the projects load |
| ProjectPicker.CaseInsensitive | src/components/TimeTracking/ProjectModal.tsx:42 | two terms that lower to the same string show the same projects |
| ProjectPicker.LoweredTermSameResult | src/components/TimeTracking/ProjectModal.tsx:42 | typing the lowered term shows the same projects as the term |
| ProjectPicker.NarrowingTerm | src/components/TimeTracking/ProjectModal.tsx:42 | a term containing another shows a subsequence of what the shorter term shows |
| ProjectPicker.TaskCount | src/components/TimeTracking/ProjectModal.tsx:51-53 | the count is at most the number of tasks and is 0 exactly when no task has the project id |
| ProjectPicker.TaskCountCountsMatches | src/components/TimeTracking/ProjectModal.tsx:52 | the count is the number of task positions whose project id is the given id |
| ProjectPicker.ProjectTaskCount | src/components/TimeTracking/ProjectModal.tsx:79 | a project with an id is counted against that id, one without against the empty id |
| Sequences.Option.GetOr | src/components/TimeTracking/ProjectModal.tsx:79 | `x ?? fallback` is the value when there is one and the fallback otherwise |
| ProjectPicker.MissingIdCountsEmptyProjectId | src/components/TimeTracking/ProjectModal.tsx:79 | a project without an id counts the tasks whose project id is empty |
| Sequences.FilterIsSubsequence | src/components/TimeTracking/TimeEntryList.tsx:151 | `filter` keeps the order of the elements it keeps |
| Sequences.FilterLength | src/components/TimeTracking/ProjectModal.tsx:52 | the length of a filtered list is the number of positions whose element passes |
| Sequences.Filter | src/components/TimeTracking/ProjectModal.tsx:42 | `filter` keeps only elements that pass, keeps every element that passes, and is no longer than its input |
| TimeTracking.CheckStart | src/components/TimeTracking/TimeEntryList.tsx:57-80 | a start is refused for want of a project exactly when neither a project nor an entry is given, refused as already running exactly when a fresh start meets a running entry, and allowed otherwise |
| TimeTracking.Truthy | src/components/TimeTracking/TimeEntryList.tsx:57-64 | an optional string is falsy exactly when it is `null` or empty, as `!selectedProject` and `if (entryId)` test |
| TimeTracking.NewEntry | src/components/TimeTracking/TimeEntryList.tsx:82-90 | the created entry is running, has count 0, no end, the ISO time as id, the display as duration, and the selected project or "Unnamed Project" as name |
| TimeTracking.Pushed | src/components/TimeTracking/TimeEntryList.tsx:92-101 | the create appends the returned record exactly when the call returned a record with a non-empty id |
| TimeTracking.UpdateFor | src/components/TimeTracking/TimeEntryList.tsx:68-75 | an update request is sent exactly when the entry was found, with its id and its contents |
| TimeTracking.TimeEntryList.constructor | src/components/TimeTracking/TimeEntryList.tsx:18-24 | an empty list, not running, display `00:00:00` (zero seconds counted), no project, no entry being edited, no request |
| TimeTracking.TimeEntryList.Load | src/components/TimeTracking/TimeEntryList.tsx:26-35 | a successful fetch sets the list to the fetched records with an id; a failed fetch leaves it as it was |
| TimeTracking.TimeEntryList.Tick | src/components/TimeTracking/TimeEntryList.tsx:40-54 | while running, the display is replaced by its tick and counts one second more |
| TimeTracking.TimeEntryList.SelectProject | src/components/TimeTracking/TimeEntryList.tsx:157-160 | the selected project becomes the chosen project's name |
| TimeTracking.TimeEntryList.Start | src/components/TimeTracking/TimeEntryList.tsx:56-106 | a refused start changes nothing; otherwise the flag is set; a resume applies the resume update and sends the found entry; a fresh start sends the new entry, appends the returned record if it has an id, and leaves at most one entry running |
| TimeTracking.TimeEntryList.Stop | src/components/TimeTracking/TimeEntryList.tsx:108-126 | flag off, display `00:00:00` with zero seconds counted, no project; entries with the id stop with the old display as duration (by `ShowsElapsed`, the rendering of the seconds counted), even for an unknown id; the found entry is sent; no entry starts running |
| TimeTracking.TimeEntryList.ShowsElapsed | src/components/TimeTracking/TimeEntryList.tsx:44-50 | the display always shows the rendering of the seconds counted since the last reset, so a stop after 125 seconds records `00:02:05` (with `TwoMinutesFiveSeconds`) |
| TimeTracking.TimeEntryList.Edit | src/components/TimeTracking/TimeEntryList.tsx:128-134 | the form opens on the first entry with the id, and an unknown id leaves it as it was |
| TimeTracking.TimeEntryList.Save | src/components/TimeTracking/TimeEntryList.tsx:136-146 | the update is sent; the list is replaced by id only when the call succeeds |
| TimeTracking.TimeEntryList.Delete | src/components/TimeTracking/TimeEntryList.tsx:148-155 | the delete is sent; the entries with the id are removed only when the call succeeds; no entry starts running |
| TimeTracking.TimeEntryList.IncrementCount | src/components/TimeTracking/TimeEntryList.tsx:162-166 | the entries with the id count one more, and the number of running entries is kept |
| TimeTracking.SecondFreshStartIsRefused | src/components/TimeTracking/TimeEntryList.tsx:77-80 | after a fresh start and one second, a second fresh start is refused, the display shows `00:00:01` and one entry runs |
| TimeTracking.FailedCreateRunsNoEntry | src/components/TimeTracking/TimeEntryList.tsx:92-104 | a fresh start whose create throws still sets the flag while no entry runs |
| TimeTracking.ResumeRunsTwo | src/components/TimeTracking/TimeEntryList.tsx:56-116 | start and stop a timer for one project, start one for another, then resume the first entry: the resume is accepted and two entries run |

## Left out

- The HTTP layer (`src/api/*.ts`) is not part of this model. A remote call is a parameter: a success or failure for updates and deletes, a result for the create, and an option of records for the fetch.
- The remote calls are not modelled as the handlers' own awaits. Late completions, and handlers that read state from before an await, are async interleaving and are left out.
- `setInterval` and `clearInterval` are left out as scheduling: `TimeEntryList.Tick` is one explicit interval callback, allowed only while the flag is set.
- `new Date().toLocaleTimeString()` and `toISOString()` are clock reads and are left out: they are the `nowTime` and `nowIso` parameters.
- `alert` and `console.error` are side effects only and are left out: a refused start returns a `StartError`, and a logged failure is otherwise ignored.
- The modal and form open flags (`isModalOpen`, `isFormOpen`) and the JSX rendering are presentation only and are left out. This includes the global stop button's `find(...)!`, which fails when the flag is set and no entry runs (see `FailedCreateRunsNoEntry`).
- TimerText.Parse: reads only displays whose first three fields are non-empty ASCII digit strings. It gives no value for a non-digit field (empty, signed, with spaces, decimals, exponents or hex), and none for a display with fewer than three fields, where the code's missing field is `undefined` and it prints `NaN:NaN:NaN`. `Tick` requires a display that `Parse` reads.
- TimerText.Updater: leaves a display that `Parse` does not read as it is. The code reads any field `Number` accepts (`''` as 0, so `00::00` ticks to `00:00:01`) and prints `NaN` for the rest. The class invariant keeps the display readable, so this case is never reached from a reset.
- Records from the server are taken to carry every `TimeEntry` field. The server's record type makes every field except `id` optional and adds `taskId` and `taskName`, and the load filter checks only `id`. A record missing `count` would count to `NaN`, one missing `isRunning` would count as not running, and a record whose `id` is `null` passes the `!== undefined` filter. None of these cases is modelled.
- ProjectPicker.LowerChar: folds only ASCII letters, because Unicode case mapping is out of scope.
- `count` and the timer fields are unbounded integers. The code uses JavaScript numbers, which lose precision only beyond 2^53.
- The project and task screens (`ProjectList.tsx`, `ProjectForm.tsx`, `TaskList.tsx`, `TaskForm.tsx`), `Navbar.tsx`, `App.tsx` and the pages are CRUD, render and routing code and are not part of this model.
