# Weekly class schedule: conflict model and auto-resolver

This project models the scheduling core of `app.js`, a single-page tool. A
student uses it to pick courses from a fixed catalog (programs → courses →
sessions), choose a group for each course, see the time conflicts among the
chosen sessions, have the tool try to resolve them by switching groups, and
print the week as a table with a note per day.

Modules, one file each:

- `time.dfy` (`Time`): time tokens (`"HH:MM"`, `""`, `"Online"` or malformed)
  and `timeToMin`. JavaScript numbers are modelled as integers plus NaN. The
  module also holds `overlap`, with JavaScript's coercions: a null end
  becomes 0 in `Math.min`, and NaN compares false.
- `catalog.dfy` (`Catalog`): the parsed catalog as datatypes, plus:
  - `Array.prototype.find` over programs and courses;
  - `getProgramsByMode`, `courseId` and `getCourseDef`;
  - group extraction (the distinct non-zero groups, in ascending order);
  - the day and "Online" filters.
- `selection.dfy` (`Selection`): the checkbox and group selector of every
  course, as the class `SelectionStore`. It holds a map from course to
  (checked, group, enabled). The module covers the state `buildCourseList`
  creates and the projection `selectedSessions`. The projection is a method
  with loops, proved equal to the function `Selected`.
- `conflicts.dfy` (`Conflicts`): `detectConflicts`, as a method that fills the
  by-day buckets and runs the nested `i < j` loops. It is proved equal to the
  function `Detected`, and `Detected` is proved sound and complete.
- `resolver.dfy` (`Resolver`): `tryAutoResolve`, as methods that set, keep or
  restore group selectors in the store. They are proved equal to the function
  `Resolve`. The pass functions `Passes`, `ScanPass` and `TryItem` take the
  conflict recomputation as a function-valued parameter, and `Resolve` fixes it
  to `detectConflicts(selectedSessions())`. The module states the pass bounds
  and what the passes preserve, including that every enabled selector holds one
  of its course's group options. A run that stops with fewer than 8 changes
  leaves a fixed point. A run that reaches the 8-pass cap may not.
- `layout.dfy` (`Layout`): the preview and PDF table rows. Rows follow
  `DAYS_ORDER`, and each day is sorted stably by start. The module also has
  the PDF placeholder row and `notesForDay`.
- `seqs.dfy` (`Seqs`): a generic flat-map over sequences, with its append and
  membership lemmas. The loops of the source build their output by appending
  per item, per day or per pair, and are specified with it.

## Model

| member | source | states |
|---|---|---|
| Time.TimeToMin | app.js:16-20 | `""` and `"Online"` give null; `"H:M"` gives 60·H+M (never negative); a malformed token gives NaN. Each direction is an iff. |
| Time.Overlap | app.js:21-26 | The test holds exactly when all four tokens are `"HH:MM"` and max(starts) < min(ends). This covers the null-start guard, a null end coerced to 0, and NaN comparing false. |
| Time.NullStartNeverOverlaps | app.js:21-24 | A null start on either side gives no overlap. |
| Time.NullEndNeverOverlaps | app.js:21-25 | A null end on either side gives no overlap, because `Math.min` turns it into 0. |
| Time.OverlapSymmetric | app.js:21-26 | `overlap(a, b) == overlap(b, a)`. |
| Time.BackToBackNeverOverlaps | app.js:21-26 | A session ending when the other starts does not overlap it. |
| Catalog.FindProgramSpec | app.js:30-31 | `find` returns the first program with the id, and returns nothing exactly when no program has it. |
| Catalog.FindCourseSpec | app.js:137 | `find` returns the first course with the key, and returns nothing exactly when no course has it. |
| Catalog.ProgramsByModeSpec | app.js:28-35 | `"y1"` keeps only bp1 and `"y2"` only bp2, at most one program each; any other mode keeps bp1 then bp2. No other program is ever kept. Each kept program is the catalog's first with that id, and a missing program is dropped (iff per id). |
| Catalog.CourseIdInjective | app.js:42-44 | For program ids without `':'`, equal course ids mean equal program ids and equal course keys. |
| Catalog.GetCourseDefSpec | app.js:135-138 | A course is found exactly when the first program with the id has a course with the key. The result is that program's first course with that key. |
| Catalog.FindCourseSnoc | app.js:137 | Appending a course changes `find`'s result only when no earlier course has the key. |
| Catalog.InsertGroup | app.js:60 | Inserting into an ascending list of distinct groups keeps it ascending and distinct, and adds exactly the new group. |
| Catalog.Groups | app.js:60 | The group options are strictly ascending. |
| Catalog.GroupsSpec | app.js:60 | The group options are exactly the non-zero group values of the sessions (iff). |
| Catalog.OnDaySpec | app.js:192 | The day filter keeps each session on that day as often as it occurs, and no other session. |
| Catalog.OnDayOrder | app.js:192 | The day filter keeps input order: filtering `xs + ys` gives the filtered `xs` followed by the filtered `ys`, and a single session is kept exactly when it is on that day. With `OnDaySpec` this makes each bucket and each day's rows keep the selection order. |
| Catalog.TimedSpec | app.js:123 | The `"Online"` filter keeps each session whose start is not `"Online"` as often as it occurs, and no other session. |
| Catalog.TimedOrder | app.js:123 | The `"Online"` filter keeps input order: filtering `xs + ys` gives the filtered `xs` followed by the filtered `ys`, and a single session is kept exactly when it does not start `"Online"`. |
| Selection.InitialEntrySpec | app.js:60-81 | A course starts unchecked. If the course has a non-zero group, its selector is enabled and shows the smallest such group. Otherwise the selector is disabled and holds 0. |
| Selection.InitialEntriesSpec | app.js:46-91 | There are controls exactly for the course ids of the mode's programs. Each holds the initial controls of a course with that id. |
| Selection.AddCoursesFirst | app.js:59-61 | A course id gets the initial controls of the first course of its program with that key, as `getElementById` finds the first element. |
| Selection.InitialEntriesFirst | app.js:53-61 | When the program ids differ, every course id holds the controls of the first course with its key. |
| Selection.InitialGroupsValid | app.js:46-91 | Each course id starts with the initial controls of the course `getCourseDef` finds for it, so every enabled selector starts on one of that course's group options. |
| Selection.InitialEntryOfCourse | app.js:59-81 | The controls of any course of the mode's programs are the initial controls of the course `getCourseDef` finds for its id. |
| Selection.SelectionStore.Build | app.js:46-91 | The store starts as the initial controls of the mode's programs. With duplicate ids, the first course wins, as with `getElementById`. |
| Selection.SelectionStore.SetChecked | app.js:100-101 | Ticking or clearing a checkbox changes only that course's checked flag. |
| Selection.SelectionStore.SetGroup | app.js:164-175 | `sel.value = String(g)` changes only that course's group. |
| Selection.InGroup | app.js:106 | The filter condition as written holds exactly when `s.group == grp`. |
| Selection.FilterGroupSpec | app.js:106 | The filter keeps each session of the chosen group as often as it occurs, and no other. It is empty exactly when no session has that group. |
| Selection.FilterGroupOrder | app.js:106 | The filter keeps session order: filtering `xs + ys` gives the filtered `xs` followed by the filtered `ys`, and a single session is kept exactly when it has the chosen group. |
| Selection.CourseContribution | app.js:98-108 | An unchecked course, or one without controls, contributes nothing. A checked course contributes exactly its sessions of the chosen group, in their order (`FilterGroup`, ordered by `FilterGroupOrder`), or all its sessions in order when none match. Each contributed session is tagged with its program and course. |
| Selection.ProgramSessionsAppend | app.js:98-109 | Output follows course order: the courses `cs1 + cs2` contribute `cs1`'s sessions, then `cs2`'s. |
| Selection.SelectedOfAppend | app.js:97-110 | Output follows program order: the programs `ps1 + ps2` contribute `ps1`'s sessions, then `ps2`'s. |
| Selection.SelectionStore.SelectedSessions | app.js:93-112 | The loop returns `Selected` of the current controls, whose properties are the lemmas above. |
| Selection.SelectionStore.PushProgram | app.js:98-109 | One program's course loop appends that program's contribution. |
| Selection.PushTagged | app.js:108 | `use.forEach(push)` appends the tagged sessions in order. |
| Conflicts.DaysOfSpec | app.js:115-122 | The bucket keys are exactly the days that occur, each once. |
| Conflicts.NoItemsOffDay | app.js:115-123 | A day with no session has an empty bucket. |
| Conflicts.RowPairsSpec | app.js:125-129 | The inner loop of row `i` finds exactly the overlapping pairs `(i, j)` with `i < j`, in increasing `j`. |
| Conflicts.PairsBelowMembers | app.js:124-130 | The nested loops up to row `n` find exactly the overlapping pairs `i < j` with `i < n`. |
| Conflicts.PairsBelowOrder | app.js:124-130 | The nested loops visit pairs in strictly increasing (i, j) order, so no pair is visited twice. |
| Conflicts.DayConflictsExactlyOnce | app.js:123-130 | A day's conflicts correspond one to one, in loop order, to a list of distinct pairs `i < j`. That list holds exactly the overlapping pairs. |
| Conflicts.DayConflictsSound | app.js:123-128 | A conflict of a day is on that day, between two timed input sessions of that day that overlap. |
| Conflicts.DetectedSound | app.js:114-133 | Every reported conflict has both sessions in the input, on its day, neither starting `"Online"`, and overlapping. |
| Conflicts.ConflictsOnDays | app.js:122-131 | Restricting the day-by-day output to day `d` gives `d`'s block, or nothing if `d` is not scanned. |
| Conflicts.DetectedOnDay | app.js:114-133 | The conflicts reported for day `d` are exactly the pair scan of `d`'s timed sessions. Clusters are never merged or repeated. |
| Conflicts.DetectConflicts | app.js:114-133 | The method returns `Detected` of its input. |
| Conflicts.BucketByDay | app.js:115-119 | The keys come in order of first appearance, and each bucket holds that day's sessions in input order. |
| Conflicts.ScanDay | app.js:124-130 | The `i` loop appends the day's conflicts. |
| Conflicts.ScanRow | app.js:125-129 | The `j` loop of row `i` appends that row's conflicts. |
| Resolver.FirstOtherSpec | app.js:161 | An alternative is found exactly when some group differs from the current one. It is in the list, differs from the current group, and is the smallest such group when the list is ascending. |
| Resolver.AlternativeSpec | app.js:151-162 | A side is tried exactly when its course is found, has at least two group options, and has an enabled selector. The trial group is then an option other than the current group, and the smallest such option. |
| Resolver.TryItemCandidate | app.js:151-176 | A side's trial is kept exactly when the side is a candidate and the controls with its alternative have strictly fewer conflicts. A kept trial's group is the smallest option other than the current group. |
| Resolver.TryItemKept | app.js:164-176 | A trial is kept only when the recomputed count is strictly lower. Then only that course's group changed, and the note names the course and its new group. |
| Resolver.ScanPassSpec | app.js:148-179 | A pass commits nothing exactly when no side of any conflict has a kept trial. Otherwise it commits the first kept trial in conflict order, side `a` before side `b`. |
| Resolver.ScanPassSkip | app.js:148-179 | When neither side of the first conflict keeps a trial, the pass result equals that of the remaining conflicts. `ScanPassSpec`'s two clauses (nothing committed iff nothing kept; the first kept trial in order) carry over from the rest to the whole list. |
| Resolver.NoneKeptCons | app.js:148-179 | No trial is kept in a list of conflicts exactly when none is kept for its first conflict or for the rest. |
| Resolver.FirstKeptCons | app.js:148-179 | The first kept trial of the remaining conflicts is the first kept trial of the whole list when the first conflict keeps nothing. |
| Resolver.StepSpec | app.js:164-176 | A kept step lowers the count and keeps the set of controls, every checked flag and every enabled flag. It moves exactly one course, a side of one of the conflicts, to that side's alternative group, and leaves every other control as it was. |
| Resolver.PassesBounds | app.js:145-181 | At most `8 - pass` changes are made, and changes plus remaining conflicts never exceed the starting conflicts. |
| Resolver.ResolveBounds | app.js:140-186 | At most 8 changes are made, no more than the initial conflict count. The final count is at most the initial count. |
| Resolver.PassesPreserve | app.js:145-181 | The passes keep the set of controls, the checked flags and the enabled flags. The conflicts they end with are those of the controls they leave. |
| Resolver.ResolvePreserves | app.js:140-186 | `tryAutoResolve` never checks or unchecks a course and never enables or disables a selector. The returned conflicts belong to the final controls. |
| Resolver.PassesGroupsValid | app.js:164-175 | The passes keep every enabled selector on one of its course's group options. |
| Resolver.ResolveGroupsValid | app.js:140-186 | After `tryAutoResolve`, every enabled selector holds one of its course's group options, both from any controls where this held and from the controls `buildCourseList` creates. |
| Resolver.PassesStopped | app.js:145-181 | Passes that stop before the eighth end with no conflicts, or after a pass that keeps nothing. |
| Resolver.ResolveIdempotent | app.js:140-186 | After a run with fewer than 8 changes, running again changes nothing. A run that hits the 8-pass cap is not claimed to be a fixed point. |
| Resolver.Recompute | app.js:183-185 | The final sessions are `Selected` of the final controls, and the conflicts are `Detected` of those sessions. |
| Resolver.CountConflicts | app.js:165-166 | A trial's recomputation yields the conflicts of the trial controls. |
| Resolver.CandidateGroup | app.js:151-162 | The guard chain yields a group exactly when the course is found, has two group options or more, and has an enabled selector. The group is then the smallest option other than the current one. |
| Resolver.TryCandidate | app.js:151-176 | One trial on the store either commits the step `TryItem` prescribes or leaves the store unchanged (the revert). |
| Resolver.RunPass | app.js:148-179 | The walk over the conflicts commits what `ScanPass` prescribes. With no commit, the store is unchanged. |
| Resolver.PassStep | app.js:146-180 | One pass of the loop is one step of `Passes`. |
| Resolver.RunPasses | app.js:145-181 | The bounded pass loop leaves the controls and changes that `Passes` prescribes. |
| Resolver.TryAutoResolve | app.js:140-186 | The store ends as `Resolve` prescribes and the changes are `Resolve`'s. The returned sessions and conflicts are recomputed from the final controls. |
| Layout.InsertPerm | app.js:193 | Insertion adds exactly the new element. |
| Layout.InsertSorted | app.js:193 | Insertion into a list sorted by start key keeps it sorted. |
| Layout.InsertStable | app.js:193 | Insertion appends the new element after all elements with the same key. |
| Layout.SortByStartSpec | app.js:193 | The day sort is sorted by start key, a permutation, and stable: each key's elements keep their input order. |
| Layout.DaysOrderDistinct | app.js:1 | The six day names of `DAYS_ORDER` are distinct. |
| Layout.DayRowsShape | app.js:192-194 | A day's rows are its own sessions, ascending by start key. |
| Layout.TableRowsOrdered | app.js:191-195 | Rows are grouped in `DAYS_ORDER` order whatever the input order. Each row sits under its session's day, and rows ascend by start within a day. |
| Layout.NullStartsLast | app.js:193 | Within a day, a null start (`""` or `"Online"`) comes after every `"HH:MM"` start below 99999. |
| Layout.DayRowsItems | app.js:192-194 | A day's rows show each session of that day as often as it is selected. |
| Layout.TableRowsPermutation | app.js:191-195 | The table shows each session whose day is in `DAYS_ORDER` as often as it is selected. Sessions on any other day are omitted. |
| Layout.PdfPlaceholder | app.js:256-261 | The PDF table is the single placeholder row exactly when no session is on a day of `DAYS_ORDER`; otherwise it holds the session rows only. The preview shows its message in exactly the same case. |
| Layout.BuildRows | app.js:191-195 | The row loops produce `TableRows`. |
| Layout.BuildPdfRows | app.js:255-261 | The PDF row loop and the placeholder produce `PdfRows`. |
| Layout.RenderPreview | app.js:188-200 | The preview is the message when there are no rows, and the table otherwise. |
| Layout.TotalOfWellFormed | app.js:212 | Without malformed tokens, the `reduce` equals the sum of end minus start, with null counting as 0. |
| Layout.MalformedTotalIsNaN | app.js:212 | A malformed start or end anywhere makes the total NaN. |
| Layout.NotesIgnoreOthers | app.js:210-211 | Adding sessions of other days, or `"Online"` ones, changes neither the day's items nor its note. |
| Layout.NotesFree | app.js:210-213 | A day is free exactly when it has no session outside `"Online"`. |
| Layout.NotesHeavyWellFormed | app.js:212-214 | A heavy day has no malformed token, since NaN is never ≥ 360. |
| Layout.NotesMalformed | app.js:212-216 | With a malformed token the total is NaN, so the note is light exactly for a single session and moderate exactly for several. |
| Layout.NotesByTotal | app.js:210-217 | Without malformed tokens: heavy iff the total is at least 360; light iff there is one session and the total is under 360; moderate iff there are several and the total is under 360. The heavy test comes before the single-session test. |

## Left out

- Loading the catalog (`loadData`, `fetch`) is network I/O. The catalog is an
  immutable input value.
- DOM plumbing is not modelled: `el`, `getMode`'s radio lookup, element
  construction and HTML strings in `buildCourseList`, `clearOutputs`,
  `showWarnings`, wiring, and `init`. The checkbox and select elements are the
  `SelectionStore`, and the mode is a parameter.
- `SelectionStore` is keyed by `CourseRef(programId, courseKey)` rather than
  by the joined `"prog:key"` string. `Catalog.CourseIdInjective` shows the two
  agree for program ids without `':'`. That covers `bp1` and `bp2`, the only
  programs `getProgramsByMode` keeps.
- A select element's value rules are not modelled. Setting a value that is
  not an option would make it `""`, but the resolver only writes option
  values: `Resolver.ResolveGroupsValid` shows that every enabled selector
  holds one of its course's options. `Number(sel.value)` is the stored integer
  group.
- The HTML of `renderPreview` and all of `generatePdf`'s drawing are left out:
  PDFLib, fonts, page geometry, colours, the `y < 60` cut-off of the notes
  loop, and the download. These are foreign library calls, floating point
  and asynchronous I/O. A row is modelled as the session it shows under its
  day, and its formatted cells (`start – end`, `room || "-"`) are left out.
- Layout.StartKey: a malformed start (NaN key) is placed like a null start,
  at 99999. A NaN comparator makes JavaScript's sort order
  implementation-defined, so the ordering lemmas are meaningful only for
  well-formed or null starts.
- Time.TimeToMin: a well-formed token is `HM(h, m)` with natural `h` and `m`.
  Negative or fractional parts and other number spellings accepted by
  `Number` are folded into `Bad` (NaN) or left out.
- Bucket keys follow first appearance. JavaScript's `Object.keys` puts
  integer-like keys first, but day names are never integer-like.
- Change notes are `Change(course, group)` rather than the Turkish message
  strings. The warning texts and the usage beacon (telemetry over the
  network) are left out.
- Resolver.CountConflicts: the sessions a trial computes are never returned
  (they are overwritten by the final recomputation), so only the trial's
  conflicts are kept. `TryAutoResolve` returns the recomputed sessions, as
  the source does.
- Layout.SortByStart: `dayItems.sort` sorts an array in place. The model sorts
  a sequence value with a stable insertion sort, the behaviour
  `Array.prototype.sort` guarantees.
- The repository holds a near-identical copy of this code that wraps course
  names to two lines with an ellipsis in the PDF table. That copy is not
  part of this model. The `app.js` modelled here draws every row at a fixed
  height with the name unwrapped, so no wrapping is modelled.
