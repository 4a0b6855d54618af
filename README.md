# Course prerequisites, schedule readers and chat menus of the ISIPP 1206 website

This project models the logic of the school website that does not concern layout. It states and proves properties of that model in Dafny.

- **Four-state prerequisite engine** (`useCorrelativas`). Every course has a lamp that is "off", "semi", "regular" or "on". A prerequisite report says which courses are missing. The load seeds every lamp and a settle loop recomputes lamps until a whole pass changes nothing. A queue-driven cascade with a visited set demotes the courses that depend on a changed one, and it never promotes a course. A click moves a lamp through semi/off → regular → on → semi. `SubjectGrid` sits in front of the click: it answers a click on an "off" course with the two missing lists and does not pass it on.
- **Two-state lamp board** (`CorrelativasVisual`). The reverse dependency map. A breadth-first search for a root cause, and the chain built from it. The stack propagation that gives every transitive dependent the clicked value. The year/term grouping and cable colours.
- **Readers and parsers**, from the row arrays onward:
  - the curriculum reader (`readCorrelativas`);
  - the two schedule spreadsheet parsers (`excelParser`, `lib/parseSchedule`);
  - the Redes schedule loader and its file-name scan.
- **Calendar helpers** (`ScheduleCalendar`): colour assignment, start hour, minutes of a clock, the hour range.
- **Chat assistant**: the menu routers for prices, schedules, curriculum and the generic conversation flows, and the read-only `ChatService` queries.

Code that updates state step by step is modelled as classes and methods with loop invariants. Each such method is proved equal to a function, and the lemmas about that function state what the program promises. Pure routers and helpers are modelled as functions and lemmas.

Some source code does not do what it evidently means to, as listed under "## Findings". The modelling members follow the code as written. Where a definition covers both readings, a flag selects between them: `corrected` in the price and curriculum routers and in `LibSchedule`, `checkPrerequisites` in `LampEngine.Propagate`. The intended behaviour is proved on the corrected reading.

## Model

| member | source | states |
|---|---|---|
| Correlativas.MissingReport | components/correlativas/useCorrelativas.ts:76-87 | `faltantes` holds exactly the regular prerequisites that are neither regular nor on and the approval prerequisites that are not on; it is empty exactly when `Satisfied` holds (the predicate of lines 64-74); `aprobadas` holds exactly the approval prerequisites already on and shares nothing with `faltantes` |
| Correlativas.Recompute | components/correlativas/useCorrelativas.ts:102-109 | never promotes: it yields regular or on only when the course already had that state; a regular/on course keeps its state while satisfied and otherwise drops to semi, never to off; any other course becomes semi when satisfied and off otherwise |
| Correlativas.Sweep | components/correlativas/useCorrelativas.ts:100-128 | the pass over all courses for the dequeued course keeps the visited list and only appends to the queue |
| Correlativas.SweepQueuesNames | components/correlativas/useCorrelativas.ts:111-113 | the pass queues only names of loaded courses |
| Correlativas.Drain | components/correlativas/useCorrelativas.ts:95-129 | the `while (queue.length > 0)` loop ends with an empty queue; it terminates because every processed course joins the visited list and only loaded names are queued |
| Correlativas.DrainStep | components/correlativas/useCorrelativas.ts:96-101 | processing the head of the queue adds it to the visited list and strictly shrinks the set of names still to visit |
| Correlativas.DrainSkips | components/correlativas/useCorrelativas.ts:97 | an empty name or an already visited one is dropped from the queue without any other effect |
| Correlativas.SweepWrites | components/correlativas/useCorrelativas.ts:111-125 | a course that lists the dequeued course and whose recomputed state differs is rewritten, queued, and, outside the initial run, reported when it drops to semi with missing prerequisites |
| Correlativas.SweepSkips | components/correlativas/useCorrelativas.ts:101-111 | a course that does not list the dequeued course, or whose state would not change, is left alone |
| Correlativas.CascadeUpdate | components/correlativas/useCorrelativas.ts:89-139 | the queue loop with its visited set computes the same states and the same last warning as the functional `Cascade` |
| Correlativas.RecomputeDependents | components/correlativas/useCorrelativas.ts:100-128 | the `materias.forEach` pass, written as a loop over the courses, leaves the states, queue and warning that `Sweep` describes |
| Correlativas.SweepFootprint | components/correlativas/useCorrelativas.ts:100-113 | one pass promotes no course and rewrites only courses that list an already visited course |
| Correlativas.DrainFootprint | components/correlativas/useCorrelativas.ts:95-129 | the whole loop promotes no course, rewrites only courses listing a visited course, extends the visited list, and visits each course at most once |
| Correlativas.CascadeFootprint | components/correlativas/useCorrelativas.ts:89-139 | the cascade never promotes a course to regular or on, rewrites only courses that list a course it visited, and visits every course at most once |
| CascadeProperties.SatisfiedUnlisted | components/correlativas/useCorrelativas.ts:64-74 | whether a course's prerequisites are met does not depend on the state of a course it does not list |
| CascadeProperties.SatisfiedLowUpdate | components/correlativas/useCorrelativas.ts:64-74 | moving any course between off and semi cannot meet or break anybody's prerequisites, since only regular and on count |
| CascadeProperties.SweepKeepsCoherence | components/correlativas/useCorrelativas.ts:100-128 | after a pass for a visited course, every course is coherent with the current states or is still waiting in the queue, and the changed course keeps its state |
| CascadeProperties.DrainKeepsCoherence | components/correlativas/useCorrelativas.ts:95-129 | when the queue loop ends, every loaded course is coherent (its state is what `Recompute` gives it) and the changed course keeps its state |
| CascadeProperties.CascadeRestoresCoherence | components/correlativas/useCorrelativas.ts:89-139 | a cascade started from the changed course, when only its dependents could be out of date, leaves every course coherent and the changed course as the click left it |
| CascadeProperties.SweepOnStable | components/correlativas/useCorrelativas.ts:100-128 | on a map where every course already has its recomputed state, a pass changes nothing and reports nothing |
| CascadeProperties.DrainOnStable | components/correlativas/useCorrelativas.ts:95-129 | on such a stable map the queue loop changes no state and no warning |
| CascadeProperties.CascadeOnStable | components/correlativas/useCorrelativas.ts:89-139 | the cascade is a fixpoint on a stable map: the states come back unchanged and no warning is raised |
| CascadeProperties.CascadeTwiceDiffers | components/correlativas/useCorrelativas.ts:89-139 | off a stable map the cascade is not idempotent: with "A" semi and "C" (needing "A" regularised) regular, a first run from "A" leaves "C" semi and a second run leaves it off |
| CascadeProperties.CascadeRunsOnce | components/correlativas/useCorrelativas.ts:95-128 | over "A" and "C", a run from "A" recomputes "C" once and changes nothing else |
| CorrelativasHook.FindCourse | components/correlativas/useCorrelativas.ts:188-189 | finds nothing exactly when no loaded course has the clicked name; a found course has that name and is one of the loaded courses |
| CorrelativasHook.SeedMapKeys | components/correlativas/useCorrelativas.ts:46-51 | after loading, exactly the loaded courses have a lamp, and every lamp is off or semi |
| CorrelativasHook.SeedMapLastWins | components/correlativas/useCorrelativas.ts:46-51 | the last record of a course decides its first lamp: semi when it has no prerequisites, off otherwise |
| CorrelativasHook.SeedStates | components/correlativas/useCorrelativas.ts:46-51 | the `data.forEach` seeding loop builds exactly the map `SeedMap` describes |
| CorrelativasHook.SettleStepKeepsStable | components/correlativas/useCorrelativas.ts:157-172 | recomputing one off/semi course keeps every course already visited in the pass stable |
| CorrelativasHook.SeedMissing | components/correlativas/useCorrelativas.ts:144-152 | the copy keeps every lamp it was given and adds an off or semi lamp for each loaded course that had none |
| CorrelativasHook.SettlePass | components/correlativas/useCorrelativas.ts:157-172 | the `forEach` pass computes exactly `Pass`, whatever the names; it keeps the set of lamps, promotes no course, leaves unloaded names alone and never adds a regular/on course; with distinct names a pass that demotes no regular/on course leaves every course stable, and `cambios` false means nothing changed |
| CorrelativasHook.Pass | components/correlativas/useCorrelativas.ts:157-172 | one pass, whatever the names, keeps the set of lamps and reports a change whenever the map changed |
| CorrelativasHook.PassFacts | components/correlativas/useCorrelativas.ts:157-172 | any pass, even over repeated names, never promotes, touches only the courses' names, keeps an all-low map all low, adds no regular/on course and reports no change over a stable map |
| CorrelativasHook.PassStep | components/correlativas/useCorrelativas.ts:158-171 | one more course in the pass recomputes that course against the map as it stands and writes it only when it changed, raising `cambios` |
| CorrelativasHook.TwinsNeverSettle | components/correlativas/useCorrelativas.ts:154-173 | with two courses named "X", one needing a missing prerequisite and one needing nothing, every pass from either low seed of "X" ends with "X" semi and `cambios` true, so the `while (cambios)` loop never stops |
| CorrelativasHook.PassKeepsStable | components/correlativas/useCorrelativas.ts:157-172 | within a pass, as long as no regular/on course has been demoted, the courses already visited stay stable |
| CorrelativasHook.SettleInitial | components/correlativas/useCorrelativas.ts:141-173 | the `while (cambios)` loop terminates and leaves every course stable, the lamps of the copy plus one per loaded course, no promotion, and, from a map with no regular/on course, every course in its load-time state |
| CorrelativasHook.StableLowIsInitial | components/correlativas/useCorrelativas.ts:46-51 | a stable map with no regular/on course gives each course the state the load seeds: semi without prerequisites, off with them |
| CorrelativasHook.SettleAndCascade | components/correlativas/useCorrelativas.ts:141-176 | settling then cascading from the first name leaves every course stable and coherent, with the same guarantees as the settle loop |
| CorrelativasHook.CommitAndCascade | components/correlativas/useCorrelativas.ts:269-270 | the committed map goes through the cascade, whose last warning becomes the shown diagnostic |
| CorrelativasHook.Click | components/correlativas/useCorrelativas.ts:182-270 | the imperative click body leaves exactly the lamps, diagnostic and found flag of `Toggle` |
| CorrelativasHook.Clicked | components/correlativas/useCorrelativas.ts:199-267 | an accepted click changes at most the clicked course's lamp and keeps the set of lamps |
| CorrelativasHook.Toggle | components/correlativas/useCorrelativas.ts:182-189 | an unknown course leaves the lamps unchanged with the warning cleared and starts no animation |
| CorrelativasHook.ToggledCourseOnlyAffectsDependents | components/correlativas/useCorrelativas.ts:89-139 | changing only the clicked course can make incoherent only the courses that list it, which is what the cascade revisits |
| CorrelativasHook.ToggleTransitions | components/correlativas/useCorrelativas.ts:199-270 | the click table: semi or off with prerequisites met becomes regular, regular becomes on, on becomes semi; an unmet semi/off course keeps every lamp, warns about itself, highlights the missing prerequisites and, for off, also the approved and missing regular ones; after the cascade every course is coherent |
| CorrelativasHook.ToggleNeverPromotesOthers | components/correlativas/useCorrelativas.ts:178-273 | no lamp disappears and no course other than the clicked one becomes regular or on |
| CorrelativasHook.Hook.constructor | components/correlativas/useCorrelativas.ts:7-22 | the hook starts with no courses, no lamps, no diagnostic, loading, not initialised and initialising |
| CorrelativasHook.Hook.Load | components/correlativas/useCorrelativas.ts:33-62 | an unknown career or a failed read sets the matching error text and keeps the courses; a successful read stores the courses and the seeded lamps; loading ends false either way |
| CorrelativasHook.Hook.Initialize | components/correlativas/useCorrelativas.ts:141-176 | does nothing without courses or once initialised; otherwise leaves every course stable and coherent, clears the missing report and marks the hook initialised |
| CorrelativasHook.Hook.HandleToggle | components/correlativas/useCorrelativas.ts:178-273 | ignored while animating or before initialisation; otherwise sets lamps and diagnostic as `Toggle` gives them and animates exactly when the course was found |
| CorrelativasHook.Hook.AnimationEnds | components/correlativas/useCorrelativas.ts:197 | the timer accepts clicks again and changes nothing else |
| CorrelativasHook.Hook.WarningExpires | components/correlativas/useCorrelativas.ts:209-237 | either warning timer clears the warning, the highlighted chain and the missing report; the 4000 ms timer of an "off" click also clears the approved and regular highlights, leaving no diagnostic; lamps, courses and flags are unchanged |
| LampEngine.FindMateria | components/CorrelativasVisual.tsx:141-142 | finds nothing exactly when no loaded course has the name; a found course has that name and is loaded |
| LampEngine.FindUnique | components/CorrelativasVisual.tsx:99 | with distinct names the search returns the one course of that name |
| LampEngine.PushesMember | components/CorrelativasVisual.tsx:64-67 | a course is pushed under `p` exactly when it lists `p` |
| LampEngine.DependentsMember | components/CorrelativasVisual.tsx:61-70 | the dependents recorded under `p` are exactly the courses listing `p` |
| LampEngine.DependentsEmpty | components/CorrelativasVisual.tsx:61-70 | a prerequisite gets an entry exactly when some course lists it |
| LampEngine.AddDependent | components/CorrelativasVisual.tsx:64-67 | the inner `forEach` appends the course under each of its prerequisites, once per listing, and creates no empty entry |
| LampEngine.DependentsMap | components/CorrelativasVisual.tsx:61-70 | the memo holds, under every listed prerequisite and only those, exactly the courses listing it in load order |
| LampEngine.ScanPrerequisites | components/CorrelativasVisual.tsx:102-111 | the scan returns the first dark prerequisite that is not itself blocked, or else has queued every dark prerequisite, only appending blocked ones to the queue, and queues nothing when all prerequisites are lit |
| LampEngine.FindRootDependency | components/CorrelativasVisual.tsx:90-114 | a found root is a dark prerequisite that is not itself blocked, reached from the subject through dark prerequisites past blocked courses only (`DarkPath`); nothing is found for a subject that is not blocked; on an acyclic graph a blocked subject always yields a root |
| LampEngine.VisitKeeps | components/CorrelativasVisual.tsx:100-110 | visiting a course whose scan finds no root keeps the search invariant: the dark blocked prerequisites are queued, each with a dark walk from the subject through the visited course |
| LampEngine.RootFollowsSubject | components/CorrelativasVisual.tsx:90-114 | with "A" needing "X", an unrelated "B" needing "Y" and every lamp dark, the only root reachable from "A" is "X" |
| LampEngine.SearchSettles | components/CorrelativasVisual.tsx:94-112 | a search that ran dry on an acyclic graph has visited a name that is not blocked, which is why a blocked subject always yields a root |
| LampEngine.BuildDependencyChain | components/CorrelativasVisual.tsx:117-133 | the chain is empty or exactly the root followed by the subject, the root reached from the subject through dark prerequisites (`DarkPath`); it is empty for a subject that is not blocked and non-empty for a blocked subject on an acyclic graph, so the `chain.includes` guard never fires |
| LampEngine.SpreadFrom | components/CorrelativasVisual.tsx:172-177 | one `forEach` over the dependents of the popped course changes only what the closure from the toggled course must change, only to the new value, and only appends to the stack; with the prerequisite check every relit course has its prerequisites lit, and every dependent of a popped course is lit or still waits on a prerequisite that is dark or queued |
| LampEngine.Propagate | components/CorrelativasVisual.tsx:162-178 | the stack loop terminates, changes only lamps that every closed set from the toggled course holds, and only to the new value; as written every dependent of a changed course ends with the new value; lighting with the prerequisite check relights a dependent of a changed course exactly when all its prerequisites are lit; darkening, and lighting with the check, keep a consistent map consistent |
| LampEngine.LightKeepsConsistent | components/CorrelativasVisual.tsx:172-177 | lighting a dependent whose prerequisites are all lit keeps the map consistent |
| LampEngine.AllLitConsistent | components/CorrelativasVisual.tsx:45-48 | the all-lit map after loading is consistent when every prerequisite is a loaded course |
| LampBoard.LightAll | components/CorrelativasVisual.tsx:45-48 | loading lights exactly the loaded courses |
| LampBoard.ToggleStartRepairable | components/CorrelativasVisual.tsx:144-163 | a click on a course that is not blocked, from a consistent map, starts a propagation that can restore consistency |
| LampBoard.RelightLeavesB | components/CorrelativasVisual.tsx:162-178 | relighting "A" in the three-course example never lights "B", since no closed set from "A" needs it |
| LampBoard.RelightBeforeConsistent | components/CorrelativasVisual.tsx:162-178 | the all-dark map of the example is consistent |
| LampBoard.RelightAsWritten | components/CorrelativasVisual.tsx:162-178 | the propagation as written, relighting "A", lights "C" although its other prerequisite "B" is dark: a consistent map becomes inconsistent |
| LampBoard.RelightChecked | components/CorrelativasVisual.tsx:162-178 | with the prerequisite check the same click lights only "A" and the map stays consistent |
| LampBoard.Flip | components/CorrelativasVisual.tsx:162-178 | the clicked course flips; only courses that every dependents-closed set from it holds change, each to the new value, and every dependent of a changed course holds it, whatever its other prerequisites; darkening keeps a consistent map with distinct names consistent |
| LampBoard.FlipChecked | components/CorrelativasVisual.tsx:162-178 | corrected propagation: only courses of the least dependents-closed set change, each to the new value; darkening reaches every dependent of what changed; lighting relights a course only when all its prerequisites are lit and relights every dependent of a changed course whose prerequisites are all lit; a consistent map with distinct names stays consistent in both directions |
| LampBoard.Board.constructor | components/CorrelativasVisual.tsx:16-23 | the component starts with no courses, no lamps, no warning or highlight, loading and not animating |
| LampBoard.Board.Load | components/CorrelativasVisual.tsx:36-58 | a failed read sets the error text with the career's display name and keeps the courses; a successful read stores them and lights exactly the loaded courses; loading ends false |
| LampBoard.Board.HandleToggle | components/CorrelativasVisual.tsx:136-190 | ignored while animating or for an unknown name; a blocked course changes no lamp, is named in the warning and, when a root exists (always on an acyclic graph), highlights the root, reached from the clicked course through dark prerequisites, and the course and starts the animation; otherwise the clicked course flips, only courses that every dependents-closed set from it holds change, every dependent of a changed course takes the new value, and a darkening click keeps a consistent map consistent |
| LampBoard.Board.TurnOffInSequence | components/CorrelativasVisual.tsx:73-87 | every listed subject ends dark, every other lamp is unchanged, and the animation is on |
| LampBoard.Board.HighlightExpires | components/CorrelativasVisual.tsx:153-157 | the highlight and root are cleared and clicks are accepted again; nothing else changes |
| LampBoard.Board.AnimationEnds | components/CorrelativasVisual.tsx:83 | clicks are accepted again; nothing else changes |
| LampBoard.Board.GroupedByYear | components/CorrelativasVisual.tsx:193-207 | the memo groups every loaded course once, by year and then by term column |
| SubjectGrid.FlattenMembers | components/correlativas/SubjectGrid.tsx:67-68 | the courses flattened out of the grouping are exactly the loaded courses |
| SubjectGrid.SatisfactionMapKeys | components/correlativas/SubjectGrid.tsx:41-56 | the record gets an entry for exactly the names visited |
| SubjectGrid.SatisfactionMapValue | components/correlativas/SubjectGrid.tsx:45-53 | a course whose name no other visited course shares gets its own prerequisite check as its entry |
| SubjectGrid.DependencyStates | components/correlativas/SubjectGrid.tsx:41-56 | the three nested loops over years, columns and courses build exactly the record of each grouped course's prerequisite check, later courses of a name overwriting earlier ones |
| SubjectGrid.RecordYear | components/correlativas/SubjectGrid.tsx:44-55 | the loops over one year's columns extend the record by that year's courses in order |
| SubjectGrid.DependencyStatesAgree | components/correlativas/SubjectGrid.tsx:38-59 | on a curriculum with distinct names the record has one entry per loaded course, holding whether its prerequisites are met |
| SubjectGrid.FlattenNames | components/correlativas/SubjectGrid.tsx:67-68 | grouping keeps the set of names |
| SubjectGrid.GridMissing | components/correlativas/SubjectGrid.tsx:81-84 | the approval list holds exactly the approval prerequisites not on; the regular list exactly the regular prerequisites neither regular nor on |
| SubjectGrid.GridMissingIsReport | components/correlativas/SubjectGrid.tsx:81-86 | the grid's regular then approval lists make up exactly the hook's `faltantes`, and both are empty exactly when the prerequisites are met |
| SubjectGrid.Grid.constructor | components/correlativas/SubjectGrid.tsx:31-36 | the grid starts with no record, no highlight and no timer |
| SubjectGrid.Grid.Refresh | components/correlativas/SubjectGrid.tsx:38-59 | before initialisation the record is kept; afterwards it is the record of the grouped courses |
| SubjectGrid.Grid.HandleLampClick | components/correlativas/SubjectGrid.tsx:61-99 | a pending highlight is cleared; the click is passed on exactly when the course is unknown or not off; an off course with missing prerequisites is highlighted with both lists and arms the timer, otherwise nothing more happens |
| SubjectGrid.Grid.HighlightExpires | components/correlativas/SubjectGrid.tsx:95-97 | the highlight is cleared |
| SubjectGrid.FindGrouped | components/correlativas/SubjectGrid.tsx:67-71 | a course is found among the grouped courses exactly when it is found among the loaded ones |
| SubjectGrid.ClickLamp | components/correlativas/SubjectGrid.tsx:61-99 | the click is passed to the hook exactly for a course the grouping does not hold or one that is not off; a passed click clears a pending highlight and is the hook's toggle in full (lamps, diagnostic, animation flag), or changes nothing in the hook while it animates or before initialisation; an off course leaves the whole hook unchanged and only sets the grid's highlight of both missing lists when one is non-empty; the courses and load flags never change |
| SubjectGrid.LampFlags | components/correlativas/SubjectGrid.tsx:152-160 | exactly one of on, regular and semi is shown for those states, and none for off or a course without a state |
| Grouping.Clave | hooks/useGroupedMaterias.ts:11 | the key is "Anual" exactly for a yearly course or term 0, and otherwise "C" followed by the term's decimal text |
| Grouping.ColumnMember | hooks/useGroupedMaterias.ts:8-15 | an item is in a column exactly when it is an input item whose year and key name that column |
| Grouping.YearIndex | hooks/useGroupedMaterias.ts:9 | a found year record has that year; none is found only when no record has it |
| Grouping.ClaveIndex | hooks/useGroupedMaterias.ts:12 | a found column has that key; none is found only when no column has it |
| Grouping.GroupByYear | hooks/useGroupedMaterias.ts:4-19 | the `forEach` builds the grouping `GroupSpec` describes: every item in exactly the column of its year and key, in input order, with distinct years and keys, no empty column and as many entries as items |
| Grouping.PlaceItem | hooks/useGroupedMaterias.ts:9-14 | one step creates the year record and column on first use and appends the item to its column |
| Grouping.GroupSpecGrouped | hooks/useGroupedMaterias.ts:4-19 | the grouping puts every item in its column, keeps input order within a column, has distinct keys and no empty column, and counts as many entries as items |
| Grouping.InsertKeepsGrouped | hooks/useGroupedMaterias.ts:8-15 | placing one more item keeps the grouping exact and adds one entry |
| Grouping.BucketOf | hooks/useGroupedMaterias.ts:9-14 | an item is in exactly the column its year and key name |
| Grouping.CableColor | components/correlativas/useCorrelativas.ts:275-280 | yearly courses are primary; otherwise term 1 is accent, term 2 secondary, and anything else, a missing term included, muted; each colour exactly in its case |
| Grouping.TermZeroColumnAndColour | hooks/useGroupedMaterias.ts:11 | a term-0 course that is not yearly goes in the "Anual" column yet keeps the muted cable colour |
| Grouping.Minus | components/correlativas/SubjectGrid.tsx:126 | a difference is a number exactly when both sides are numbers |
| Grouping.ParseIntIntToString | components/correlativas/SubjectGrid.tsx:126 | reading back a year written in decimal gives the year |
| Grouping.YearOrder | components/correlativas/SubjectGrid.tsx:125-126 | years keyed by their decimal text are ordered numerically |
| Grouping.ClaveOrder | components/correlativas/SubjectGrid.tsx:128-130 | on the keys grouping produces, "Anual" sorts first, term columns compare by term number, and the comparator is antisymmetric |
| CorrelativasReader.TermOf | lib/readCorrelativas.ts:38 | a "/" or empty term cell reads as 0; any other cell reads as its number |
| CorrelativasReader.KindOf | lib/readCorrelativas.ts:39 | an empty kind cell reads as "Cuat"; any other is its text |
| CorrelativasReader.NameListMember | lib/readCorrelativas.ts:44-49 | a name is listed exactly when it is a non-empty, trimmed comma-separated piece of the cell |
| CorrelativasReader.NameListClean | lib/readCorrelativas.ts:45-48 | every listed name is non-empty, trimmed and free of commas |
| CorrelativasReader.NameListJoin | lib/readCorrelativas.ts:45-48 | a list of clean names written back with commas reads as the same list |
| CorrelativasReader.RecordByName | lib/readCorrelativas.ts:35-49 | each field is read from the column headed with its name, wherever that column is |
| CorrelativasReader.RecordWithoutColumn | lib/readCorrelativas.ts:35-49 | a header missing a column gives every record the value an absent cell reads as: "undefined", NaN, 0, "Cuat" or no prerequisites |
| CorrelativasReader.RecordsMember | lib/readCorrelativas.ts:30-52 | a record is produced for every row with a first cell and for nothing else |
| CorrelativasReader.RecordsAppend | lib/readCorrelativas.ts:30-52 | records come one per kept row, in the rows' order |
| CorrelativasReader.RecordsCount | lib/readCorrelativas.ts:30-52 | the number of records is the number of rows with a first cell |
| CorrelativasReader.ReadRow | lib/readCorrelativas.ts:35-49 | the field-by-field construction gives exactly the row's record |
| CorrelativasReader.ReadCorrelativas | lib/readCorrelativas.ts:14-54 | a response that is not ok fails exactly with "Archivo no encontrado: correlativas-<career>.xlsx"; a sheet of fewer than two rows fails exactly with "El archivo está vacío"; otherwise the first row is the header and the result is the records of the later rows |
| StringOrder.LessIrreflexive | components/sections/redes/RedesScheduleFragment.tsx:48-49 | no string sorts before itself |
| StringOrder.LessTransitive | components/sections/redes/RedesScheduleFragment.tsx:48-49 | the default string order is transitive |
| StringOrder.LessTotal | components/sections/redes/RedesScheduleFragment.tsx:48-49 | two different strings are always ordered one way or the other |
| StringOrder.LessAsymmetric | components/sections/redes/RedesScheduleFragment.tsx:48-49 | two strings are never each before the other |
| StringOrder.Insert | components/sections/redes/RedesScheduleFragment.tsx:48-49 | inserting into a sorted list keeps it sorted and adds exactly that one string |
| StringOrder.Sort | components/sections/redes/RedesScheduleFragment.tsx:48-49 | the result is sorted and a permutation of the input |
| StringOrder.SortDistinct | components/sections/redes/RedesScheduleFragment.tsx:48-49 | sorting keeps a list free of repeats |
| StringOrder.Values | components/sections/redes/RedesScheduleFragment.tsx:48-49 | the strings of the list are exactly its defined values |
| StringOrder.SortWithUndefinedSpec | components/sections/redes/RedesScheduleFragment.tsx:44-49 | sorting the collected set keeps each value once, puts the strings in ascending order and `undefined`, if present, last |
| ExcelSchedule.DiaByColumn | components/chatbot/api/excelParser.ts:107-116 | columns 1 to 5 are Monday to Friday in order; any other column fails with "Columna <n> no corresponde a un día válido" |
| ExcelSchedule.DayIsHeader | components/chatbot/api/excelParser.ts:37-46 | once the header check passed, the day given to a column is the day its header names |
| ExcelSchedule.SplitNormalized | components/chatbot/api/excelParser.ts:92-104 | on normalised text the subject and the teacher come out trimmed |
| ExcelSchedule.SplitTeacherRoundTrip | components/chatbot/api/excelParser.ts:89-105 | a subject and a teacher written as "subject (teacher)" are read back as that subject and teacher |
| ExcelSchedule.NoParenthesesNoTeacher | components/chatbot/api/excelParser.ts:101-104 | text that does not end with ")" is all subject, with "Sin profesor asignado" as teacher |
| ExcelSchedule.RowEvents | components/chatbot/api/excelParser.ts:57-71 | a row contributes at most five events |
| ExcelSchedule.EventAtSome | components/chatbot/api/excelParser.ts:57-70 | a column contributes an event exactly when it is a weekday column with a non-blank cell, and the event is that cell's subject and teacher on that column's day |
| ExcelSchedule.RowEventsMember | components/chatbot/api/excelParser.ts:54-71 | the events of a time row are exactly those of its columns |
| ExcelSchedule.RowEventsWellFormed | components/chatbot/api/excelParser.ts:54-71 | every event of a row is on a weekday, with a trimmed subject and teacher |
| ExcelSchedule.EventsWellFormed | components/chatbot/api/excelParser.ts:50-73 | every event read is on a weekday, with a trimmed subject and teacher |
| ExcelSchedule.EventsBound | components/chatbot/api/excelParser.ts:50-73 | there are at most five events per row |
| ExcelSchedule.ReadCell | components/chatbot/api/excelParser.ts:58-70 | one cell yields exactly its event, or none when blank |
| ExcelSchedule.ReadTimeRow | components/chatbot/api/excelParser.ts:57-71 | the column loop yields exactly the row's events in column order |
| ExcelSchedule.ReadEvents | components/chatbot/api/excelParser.ts:50-73 | the row loop yields exactly the events of the rows below the header, in order |
| ExcelSchedule.ParseScheduleXlsx | components/chatbot/api/excelParser.ts:15-86 | no sheet, fewer than three rows, a header that does not name the weekdays and a sheet without events each fail with their message behind the common prefix; otherwise the result is the events read |
| ExcelSchedule.ParsedEventsOnWeekdays | components/chatbot/api/excelParser.ts:15-86 | a successful read is never empty, has at most five events per data row, and every event is on a weekday |
| LibSchedule.FirstCell | lib/parseSchedule.ts:19 | the first cell is read trimmed, "" when absent |
| LibSchedule.ExtraerWords | lib/parseSchedule.ts:54-60 | words without blanks joined by one blank give the first two words as the year and the third, or "", as the division |
| LibSchedule.ExtraerRoundTrip | lib/parseSchedule.ts:54-60 | a name of exactly three words is the year and the division joined by a blank |
| LibSchedule.ConvertirClock | lib/parseSchedule.ts:50-52 | a clock comes out with a colon between its hour and its minutes |
| LibSchedule.ConvertirTwice | lib/parseSchedule.ts:50-52 | converting twice is converting once |
| LibSchedule.RangeHasA | lib/parseSchedule.ts:28-31 | a cell holding a time range still holds an "a" after its first comma becomes a colon, so the split has two parts |
| LibSchedule.ReplaceKeeps | lib/parseSchedule.ts:31 | turning the first comma into a colon keeps the length and every other character |
| LibSchedule.TimesAreClocks | lib/parseSchedule.ts:28-36 | the corrected reading gives the two clocks of the leftmost range the row guard matched, each with a colon |
| LibSchedule.SplitCutsAtLaterA | lib/parseSchedule.ts:28-36 | for "8:00 a 9:20 (tarde)"-shaped cells the split at every "a" also cuts at the later "a", so the end as written keeps the text after the clock, while the matched range ends at the clock |
| LibSchedule.MatchedRange | lib/parseSchedule.ts:28 | a range at the start of the cell is the one the row guard matches |
| LibSchedule.PlainRangeAgrees | lib/parseSchedule.ts:28-36 | on a cell holding only a range "g1 a g2" the split as written and the matched range both give the two clocks |
| LibSchedule.RowEvents | lib/parseSchedule.ts:28-44 | a row contributes at most five events, none unless its first cell holds a time range |
| LibSchedule.RowEventsFit | lib/parseSchedule.ts:30-44 | every event of a row carries the year and division of the first cell, the header's day for its column, a non-blank trimmed subject, and the start and end cut from the row's first cell |
| LibSchedule.EventsFit | lib/parseSchedule.ts:25-45 | every event of the data rows fits its header and place and takes its times from the first cell of one of the time rows |
| LibSchedule.ParsedFits | lib/parseSchedule.ts:12-48 | every event carries the first cell's year and division, the day of the second row above its column, and the times of a data row's first cell; at most five events per data row and none with fewer than three rows |
| LibSchedule.CorrectedTimesAreClocks | lib/parseSchedule.ts:28-36 | with the times read from the range the guard matched, every event has two clocks |
| LibSchedule.ReadCell | lib/parseSchedule.ts:39-43 | one cell yields exactly its event, or none when blank |
| LibSchedule.ReadTimeRow | lib/parseSchedule.ts:30-44 | the column loop, with the times cut at every "a" as written, yields exactly the row's events |
| LibSchedule.ReadRows | lib/parseSchedule.ts:25-45 | the row loop yields exactly the events of the data rows, times as written |
| LibSchedule.ParseScheduleXlsx | lib/parseSchedule.ts:12-48 | the reader yields the as-written events of the rows from the third on, under the days of the second row and the year and division of the first cell, and nothing for fewer than three rows |
| RedesFiles.FileParts | components/sections/redes/RedesScheduleFragment.tsx:43 | the name always splits into at least one part |
| RedesFiles.CareerFiles | components/sections/redes/RedesScheduleFragment.tsx:80 | a file is kept exactly when it is listed and its name starts with the career and a dash |
| RedesFiles.CareerFileHasYear | components/sections/redes/RedesScheduleFragment.tsx:43 | a career's file name always has a year part |
| RedesFiles.FileNameRoundTrip | components/sections/redes/RedesScheduleFragment.tsx:43-95 | the file name the loader fetches for a year and a division reads back, through the scan's split, as that year and division |
| RedesFiles.OfferedParts | components/sections/redes/RedesScheduleFragment.tsx:38-49 | the parts collected from a file list are offered once each, exactly those found, strings ascending and `undefined` last |
| RedesFiles.ScanYears | components/sections/redes/RedesScheduleFragment.tsx:38-48 | every year of a listed file is offered once, in ascending order, `undefined` only last |
| RedesFiles.ScanDivisions | components/sections/redes/RedesScheduleFragment.tsx:39-49 | every division of a listed file is offered once, in ascending order, `undefined` only last |
| RedesFiles.ScanSelects | components/sections/redes/RedesScheduleFragment.tsx:52-55 | with some file listed the selection is the first file's year and division, which need not be the first offered; with none, nothing is selected |
| RedesFiles.CareerScanHasYears | components/sections/redes/RedesScheduleFragment.tsx:41-48 | scanning only the career's files never offers an undefined year |
| RedesFiles.ScanHorarios | components/sections/redes/RedesScheduleFragment.tsx:37-55 | the scan loop collects exactly the years, divisions and selection `ScanOf` describes |
| RedesSchedule.AulaFrom | components/sections/redes/RedesScheduleFragment.tsx:136 | a match found from a position lies at or after it, with room for the parenthesis |
| RedesSchedule.AulaMatchLeftmost | components/sections/redes/RedesScheduleFragment.tsx:136 | the classroom match is the leftmost position the pattern matches from, and there is none exactly when it matches nowhere |
| RedesSchedule.SplitAulaAt | components/sections/redes/RedesScheduleFragment.tsx:136-140 | a match splits the cell into the trimmed text before it and the trimmed classroom inside it |
| RedesSchedule.AulaRoundTrip | components/sections/redes/RedesScheduleFragment.tsx:136-140 | a subject whose parentheses are all closed followed by a classroom in parentheses is read back as that subject and classroom |
| RedesSchedule.SplitAulaAsWrittenAt | components/sections/redes/RedesScheduleFragment.tsx:136-140 | as written, a match removes the first copy of the matched text from the cell and keeps the trimmed classroom inside it |
| RedesSchedule.AsWrittenRoundTrip | components/sections/redes/RedesScheduleFragment.tsx:136-140 | when the classroom in parentheses does not already occur in the subject, the replace as written agrees with the split at the match and reads back the subject and classroom |
| RedesSchedule.FirstCopyAtMatch | components/sections/redes/RedesScheduleFragment.tsx:138 | under that condition the first copy of the matched text is the matched one |
| RedesSchedule.NoAula | components/sections/redes/RedesScheduleFragment.tsx:136-140 | a cell that does not end with ")" is all subject, with no classroom |
| RedesSchedule.SplitsAtBoth | components/sections/redes/RedesScheduleFragment.tsx:136-140 | when the classroom in parentheses also appears earlier in the cell, the match splits at the trailing copy while the written replace removes the earlier one |
| RedesSchedule.ReplaceCutsEarlierCopy | components/sections/redes/RedesScheduleFragment.tsx:136-140 | when the subject itself names the classroom, as in "Redes (Lab 2) y Taller (Lab 2)", the replace as written removes the first copy and leaves the trailing one in the subject ("Redes  y Taller (Lab 2)"), unlike the match ("Redes (Lab 2) y Taller") |
| RedesSchedule.RowTimes | components/sections/redes/RedesScheduleFragment.tsx:115-123 | a row has times exactly when its first cell is truthy and holds a time range, and both come out as zero-padded clocks |
| RedesSchedule.Columns | components/sections/redes/RedesScheduleFragment.tsx:131 | at most five event columns, and only columns the header has |
| RedesSchedule.RowEvents | components/sections/redes/RedesScheduleFragment.tsx:113-151 | a row contributes at most five events |
| RedesSchedule.LoadRange | components/sections/redes/RedesScheduleFragment.tsx:106-157 | the load fails exactly when the sheet has fewer than two rows; otherwise both ends of the hour range lie within 0 to 23 |
| RedesSchedule.LoadCoversEvents | components/sections/redes/RedesScheduleFragment.tsx:110-157 | every event starts no earlier than the range start and ends no later than the range end unless that end was clamped to 23 |
| RedesSchedule.RowEventsTimes | components/sections/redes/RedesScheduleFragment.tsx:120-149 | every event of a row carries the row's times |
| RedesSchedule.NoTimeRows | components/sections/redes/RedesScheduleFragment.tsx:110-157 | without any time row the load gives no events and the range 23 to 0 |
| RedesSchedule.LoadFits | components/sections/redes/RedesScheduleFragment.tsx:131-149 | every event carries the header cell of a column 1 to 5, a trimmed subject (the whole non-blank cell when no classroom matched), a trimmed classroom and the career line of the selection |
| RedesSchedule.EveryCellCounts | components/sections/redes/RedesScheduleFragment.tsx:131-149 | a non-blank cell in an event column of a time row always gives an event |
| RedesSchedule.ReadCell | components/sections/redes/RedesScheduleFragment.tsx:132-149 | one cell yields exactly its event, the matched classroom text removed where it first occurs, or none when blank |
| RedesSchedule.ReadTimeRow | components/sections/redes/RedesScheduleFragment.tsx:131-150 | the column loop yields exactly the row's events |
| RedesSchedule.ReadTimes | components/sections/redes/RedesScheduleFragment.tsx:115-123 | the guard and the times of one row are exactly `RowTimes` |
| RedesSchedule.ReadHour | components/sections/redes/RedesScheduleFragment.tsx:125-126 | the hour read back from a normalised time is its hour value |
| RedesSchedule.ReadRows | components/sections/redes/RedesScheduleFragment.tsx:110-151 | the row loop yields exactly the rows' events together with the smallest start and largest end hour |
| RedesSchedule.LoadSchedule | components/sections/redes/RedesScheduleFragment.tsx:90-157 | a response that is not ok fails with "Horario no encontrado: " and the file name of the lower-cased selection; a sheet of fewer than two rows fails with "El archivo está vacío"; otherwise the events and the clamped hour range of `Load` |
| Clock.ClockAt | lib/parseSchedule.ts:28 | a clock `\d{1,2}[:,]\d{2}` found at a position is four or five characters long and fits in the text |
| Clock.ClockAtIsClock | lib/parseSchedule.ts:28 | the length measured is exactly that of a clock of the pattern, and none is measured when neither length fits one |
| Clock.Blanks | lib/parseSchedule.ts:28 | the run of white space `\s*` is taken whole: it stops at the end or at a character that is not white space |
| Clock.BlanksAreSpaces | lib/parseSchedule.ts:28 | every character of the run is white space |
| Clock.RangeAt | lib/parseSchedule.ts:28 | both captures of a range are clocks |
| Clock.RangeHasSeparator | lib/parseSchedule.ts:28 | a range has its "a" in the text |
| Clock.FindRange | components/sections/redes/RedesScheduleFragment.tsx:117 | both captures of the match are clocks |
| Clock.FindRangeLeftmost | components/sections/redes/RedesScheduleFragment.tsx:117-118 | the match is the leftmost range of the text, and there is none exactly when no position starts a range |
| Clock.FindRangeAtStart | components/sections/redes/RedesScheduleFragment.tsx:117 | a range at the start of the text is the one matched |
| Clock.RangeAtSlices | components/sections/redes/RedesScheduleFragment.tsx:117 | "start a end", with any white space around the "a", is read as its two clocks |
| Clock.ClockParts | components/sections/redes/RedesScheduleFragment.tsx:121 | a clock with its comma turned into a colon splits at the colon into its hour and minute digits |
| Clock.ColonForm | components/sections/redes/RedesScheduleFragment.tsx:121 | replacing the first comma of a clock gives its colon form |
| Clock.ColonClockReads | lib/parseSchedule.ts:31-36 | writing the separator as a colon keeps a clock and the hour and minute it reads |
| Clock.NormalizeClockShape | components/sections/redes/RedesScheduleFragment.tsx:120-123 | a padded clock is in "HH:MM" form and reads the same hour and minute |
| Clock.NormalizeIdempotent | components/sections/redes/RedesScheduleFragment.tsx:120-123 | padding a time already in "HH:MM" form leaves it unchanged |
| Clock.HourOfHourMinute | components/sections/redes/RedesScheduleFragment.tsx:125-126 | the hour read from an "HH:MM" time is its hour value |
| Calendar.PaletteColour | components/ScheduleCalendar.tsx:46-51 | the k-th subject gets the k-th class for the first ten subjects, the first class for every later one |
| Calendar.Subjects | components/ScheduleCalendar.tsx:43-44 | the subjects of the events are listed once each, exactly those some event has |
| Calendar.Rank | components/ScheduleCalendar.tsx:43-56 | a subject's rank is its first position in the list |
| Calendar.UsedMember | components/ScheduleCalendar.tsx:54 | after n subjects the used colours are exactly the first n classes, at most ten |
| Calendar.FirstFree | components/ScheduleCalendar.tsx:46 | the search returns the first class not in use, or nothing when all are used |
| Calendar.ColourOf | components/ScheduleCalendar.tsx:164 | the colour of a subject is one of the ten classes |
| Calendar.FirstFreeUsed | components/ScheduleCalendar.tsx:46-51 | with n subjects coloured the search finds class n while n is below ten, and nothing from then on |
| Calendar.PickColour | components/ScheduleCalendar.tsx:46-54 | the class picked for the next subject is its palette colour, and it joins the used classes |
| Calendar.SubjectsSnoc | components/ScheduleCalendar.tsx:43-44 | one more event lists its subject last unless it was already listed |
| Calendar.AssignColours | components/ScheduleCalendar.tsx:37-60 | the colour map has exactly the events' subjects, each with the colour of its rank of first appearance |
| Calendar.ColourStable | components/ScheduleCalendar.tsx:43-56 | a subject keeps its colour whatever events come after it |
| Calendar.NewSubjectColour | components/ScheduleCalendar.tsx:44-53 | a new subject receives the first class none of the earlier subjects uses, or the first class when all ten are taken |
| Calendar.ColoursDistinct | components/ScheduleCalendar.tsx:43-56 | while there are at most ten subjects no two share a colour |
| Calendar.HourMinuteParts | components/ScheduleCalendar.tsx:77-88 | an "HH:MM" time splits at its colon into two two-digit numbers, its hour and its minutes |
| Calendar.MinOfNumbers | components/ScheduleCalendar.tsx:75-80 | the minimum of numbers is one of them and no larger than any |
| Calendar.StartHourOfClocks | components/ScheduleCalendar.tsx:72-85 | the start hour is the one handed in if any; otherwise 8 for no events, else one hour before the earliest start, not below 0 |
| Calendar.MinutesOfClock | components/ScheduleCalendar.tsx:87-90 | an "HH:MM" time is HH hours and MM minutes after midnight |
| Calendar.HourLabelMinutes | components/ScheduleCalendar.tsx:122 | an hour row's label reads back as that hour, zero minutes |
| Calendar.HoursSpan | components/ScheduleCalendar.tsx:103 | the hour rows are the whole hours from the start to the end hour, consecutive, and none for an undefined start |
| Calendar.Column | components/ScheduleCalendar.tsx:163 | a weekday is drawn in its column from 1 to 5; any other day gets column 0 |
| Calendar.ColumnOfDay | components/ScheduleCalendar.tsx:69-163 | each weekday has its own column, Lunes first |
| ChatService.DistinctNonEmpty | components/chatbot/services/chatService.ts:11 | the values are listed once each, exactly the non-empty ones |
| ChatService.DistinctNonEmptySnoc | components/chatbot/services/chatService.ts:11 | one more value is listed last if it is new and not empty, and changes nothing otherwise |
| ChatService.Service.Subjects | components/chatbot/services/chatService.ts:10-12 | every subject named in the timetable, once, blanks left out |
| ChatService.Service.Teachers | components/chatbot/services/chatService.ts:14-16 | every teacher named in the timetable, once, blanks left out |
| ChatService.Service.AvailableDays | components/chatbot/services/chatService.ts:18-20 | exactly "Lunes", "Martes", "Miércoles", "Jueves", "Viernes", in that order, whatever the timetable holds |
| ChatService.Service.ScheduleForSubject | components/chatbot/services/chatService.ts:22-30 | exactly one slot per class of the subject, no more slots than classes |
| ChatService.Service.ScheduleByTeacher | components/chatbot/services/chatService.ts:32-40 | exactly one slot per class the teacher gives |
| ChatService.Service.ScheduleByDay | components/chatbot/services/chatService.ts:42-50 | exactly one slot per class on the day |
| ChatService.SubjectsSnoc | components/chatbot/services/chatService.ts:10-12 | subjects are listed in the order they first appear |
| ChatService.TeachersSnoc | components/chatbot/services/chatService.ts:14-16 | teachers are listed in the order they first appear |
| ChatService.ScheduleForSubjectSnoc | components/chatbot/services/chatService.ts:22-30 | a subject's slots follow the timetable's order |
| ChatService.ScheduleByTeacherSnoc | components/chatbot/services/chatService.ts:32-40 | a teacher's slots follow the timetable's order |
| ChatService.ScheduleByDaySnoc | components/chatbot/services/chatService.ts:42-50 | a day's slots follow the timetable's order |
| ChatService.ScheduleForSubjectCount | components/chatbot/services/chatService.ts:22-30 | there are exactly as many slots as classes of the subject |
| ChatService.OfferedSubjectHasClasses | components/chatbot/services/chatService.ts:10-30 | a subject the service offers always has a class listed |
| ChatService.OfferedTeacherHasClasses | components/chatbot/services/chatService.ts:14-40 | a teacher the service offers always has a class listed |
| ChatService.OfferedDaysCoverTimetable | components/chatbot/services/chatService.ts:18-50 | on a timetable read from a spreadsheet every class falls on an offered day and is listed under it |
| ChatService.HorarioSplits | components/chatbot/services/chatService.ts:27 | the printed range "inicio a fin" is read back by cutting at its first " a " |
| ChatService.SlotsSingleLine | components/chatbot/services/chatService.ts:22-50 | on a timetable without line breaks every printed slot is one line |
| ChatService.ListingLines | components/chatbot/conversationFlows.ts:49-51 | lines without breaks joined by line breaks split back into the same lines |
| ConversationFlows.InitialOptions | components/chatbot/conversationFlows.ts:10-36 | a context is set exactly for the three queries: by subject it enters the subject flow offering the service's subjects, by teacher the teacher flow offering its teachers, by day the day flow offering its days, each list in the service's order followed by "Volver"; anything else keeps the context and offers the main options |
| ConversationFlows.SubjectFlow | components/chatbot/conversationFlows.ts:38-58 | the context is cleared; the reply is a miss exactly when the subject has no classes, offering the subjects and "Volver", otherwise the main options |
| ConversationFlows.TeacherFlow | components/chatbot/conversationFlows.ts:60-80 | the context is cleared; a miss exactly when the teacher gives no classes, offering the teachers and "Volver", otherwise the main options |
| ConversationFlows.DayFlow | components/chatbot/conversationFlows.ts:82-102 | the context is cleared; a miss exactly when the day has no classes, offering the days and "Volver", otherwise the main options |
| ConversationFlows.MainOptionsUnderstood | components/chatbot/conversationFlows.ts:30-34 | every option offered after a misunderstanding is understood except "Tengo otra consulta" |
| ConversationFlows.OfferedSubjectListed | components/chatbot/conversationFlows.ts:12-17 | every subject offered when asking by subject has classes to show |
| ConversationFlows.OfferedTeacherListed | components/chatbot/conversationFlows.ts:18-23 | every teacher offered when asking by teacher has classes to show |
| ConversationFlows.SubjectFlowLines | components/chatbot/conversationFlows.ts:49-54 | an answer about a subject is its heading, one line per class of the subject in timetable order, and the closing question |
| ConversationFlows.TeacherFlowLines | components/chatbot/conversationFlows.ts:71-76 | an answer about a teacher is its heading, one line per class the teacher gives, and the closing question |
| ConversationFlows.DayFlowLines | components/chatbot/conversationFlows.ts:93-98 | an answer about a day is its heading, one line per class on that day, and the closing question |
| SchedulesFlow.InitialSelection | components/chatbot/flows/schedulesFlow.ts:18-24 | enters the timetable context with no flow, offering the three ways to search and "Volver"; not a miss |
| SchedulesFlow.MateriaSelection | components/chatbot/flows/schedulesFlow.ts:29-39 | enters the subject flow offering the subjects in the order the service lists them, then "Volver" last |
| SchedulesFlow.ProfesorSelection | components/chatbot/flows/schedulesFlow.ts:73-83 | enters the teacher flow offering the teachers in the order the service lists them, then "Volver" last |
| SchedulesFlow.DiaSelection | components/chatbot/flows/schedulesFlow.ts:117-127 | enters the day flow offering exactly "Lunes", "Martes", "Miércoles", "Jueves", "Viernes" and "Volver", in that order |
| SchedulesFlow.MateriaFlow | components/chatbot/flows/schedulesFlow.ts:44-68 | a miss exactly when the subject has no classes; a miss keeps the subject flow with the subject in the filters and offers "Consultar otra materia" and "Volver", an answer clears the context and offers the four follow-up buttons in order |
| SchedulesFlow.ProfesorFlow | components/chatbot/flows/schedulesFlow.ts:88-112 | a miss exactly when the teacher gives no classes; a miss keeps the teacher flow with the teacher in the filters and offers "Consultar otro profesor" and "Volver", an answer clears the context and offers the four follow-up buttons in order |
| SchedulesFlow.DiaFlow | components/chatbot/flows/schedulesFlow.ts:132-156 | a miss exactly when the day has no classes; a miss keeps the day flow with the day in the filters and offers "Consultar otro día" and "Volver", an answer clears the context and offers the four follow-up buttons in order |
| SchedulesFlow.MateriaStep | components/chatbot/flows/schedulesFlow.ts:181-191 | inside the subject flow "Consultar otra materia", "Ver por profesor" and "Ver por día" open the subject, teacher and day lists; any other text that is not "Volver" or "Menú principal" is looked up as a subject |
| SchedulesFlow.ProfesorStep | components/chatbot/flows/schedulesFlow.ts:193-203 | inside the teacher flow "Consultar otro profesor", "Ver por materia" and "Ver por día" open the teacher, subject and day lists; any other text that is not "Volver" or "Menú principal" is looked up as a teacher |
| SchedulesFlow.DiaStep | components/chatbot/flows/schedulesFlow.ts:205-215 | inside the day flow "Consultar otro día", "Ver por materia" and "Ver por profesor" open the day, subject and teacher lists; any other text that is not "Volver" or "Menú principal" is looked up as a day |
| SchedulesFlow.MenuStep | components/chatbot/flows/schedulesFlow.ts:217-232 | with no flow "Por materia", "Por profesor" and "Por día" open the subject, teacher and day lists; any other text gets a reply opening "Opción no reconocida" with the three buttons and "Volver" and a flowless timetable context |
| SchedulesFlow.HandleUserResponse | components/chatbot/flows/schedulesFlow.ts:161-234 | "Volver" gives the first menu and "Menú principal" the return to the main menu, whatever the flow; every reply offers buttons and either clears the context or stays in the timetable context |
| SchedulesFlow.MissKeepsFlow | components/chatbot/flows/schedulesFlow.ts:47-56 | a search that finds nothing keeps the flow it was made in |
| SchedulesFlow.RoutingByFlowOnly | components/chatbot/flows/schedulesFlow.ts:161-234 | only the flow of the context steers the answer; its filters do not |
| SchedulesFlow.ValueIsLookedUp | components/chatbot/flows/schedulesFlow.ts:180-215 | in a search flow, text that is not a navigation phrase is looked up in that flow |
| SchedulesFlow.InitialButtonsUnderstood | components/chatbot/flows/schedulesFlow.ts:18-24 | every button of the first menu is understood in the context it sets |
| SchedulesFlow.OfferedSubjectListed | components/chatbot/flows/schedulesFlow.ts:29-68 | every subject offered for choosing, unless its name is a navigation phrase, has classes to show |
| SchedulesFlow.OfferedTeacherListed | components/chatbot/flows/schedulesFlow.ts:73-112 | every teacher offered for choosing, unless their name is a navigation phrase, has classes to show |
| SchedulesFlow.MateriaFlowLines | components/chatbot/flows/schedulesFlow.ts:59-64 | a subject answer is its heading followed by one line per class of the subject, in timetable order |
| SchedulesFlow.ProfesorFlowLines | components/chatbot/flows/schedulesFlow.ts:103-108 | a teacher answer is its heading followed by one line per class the teacher gives |
| SchedulesFlow.DiaFlowLines | components/chatbot/flows/schedulesFlow.ts:147-152 | a day answer is its heading followed by one line per class on the day |
| PricesFlow.NamesListed | components/chatbot/flows/pricesFlow.ts:14-27 | the price table holds the two careers, two subjects and two procedures, in this order |
| PricesFlow.CareerNamed | components/chatbot/flows/pricesFlow.ts:61 | finds a career exactly when the name is listed, and the career found carries that name |
| PricesFlow.SubjectNamed | components/chatbot/flows/pricesFlow.ts:101 | finds a subject exactly when the name is listed, and the subject found carries that name |
| PricesFlow.ProcedureNamed | components/chatbot/flows/pricesFlow.ts:145 | finds a procedure exactly when the name is listed, and the procedure found carries that name |
| PricesFlow.InitialSelection | components/chatbot/flows/pricesFlow.ts:33-40 | offers the three kinds of price query and "Volver" and is not a miss; as written it already enters the career flow, corrected it sets a prices context with no flow |
| PricesFlow.CarreraSelection | components/chatbot/flows/pricesFlow.ts:45-55 | enters the career flow offering exactly "Seguridad Informática", "Desarrollo de Software" and "Volver", in that order |
| PricesFlow.MateriaSelection | components/chatbot/flows/pricesFlow.ts:85-95 | enters the subject flow offering exactly "Matemáticas I", "Programación I" and "Volver", in that order |
| PricesFlow.TramiteSelection | components/chatbot/flows/pricesFlow.ts:129-139 | enters the procedure flow offering exactly "Inscripción", "Certificado Analítico" and "Volver", in that order |
| PricesFlow.CarreraFlow | components/chatbot/flows/pricesFlow.ts:60-80 | a miss exactly when the career is not listed; a miss stays in the career flow remembering the name, an answer quotes that career's fee and clears the context |
| PricesFlow.MateriaFlow | components/chatbot/flows/pricesFlow.ts:100-124 | a miss exactly when the subject is not listed; a miss stays in the subject flow remembering the name, an answer quotes that subject's cost and clears the context |
| PricesFlow.TramiteFlow | components/chatbot/flows/pricesFlow.ts:144-165 | a miss exactly when the procedure is not listed; a miss stays in the procedure flow remembering the name, an answer quotes that procedure's price and clears the context |
| PricesFlow.NotRecognised | components/chatbot/flows/pricesFlow.ts:233-238 | a reply opening "Opción no reconocida" that offers the first menu again, with the same context as the first menu: flow 'carrera' as written, no flow corrected |
| PricesFlow.CarreraStep | components/chatbot/flows/pricesFlow.ts:186-196 | inside the career flow "Consultar otra carrera", "Ver costos de materias" and "Ver precios de trámites" open the career, subject and procedure lists before any lookup; other non-navigation text is looked up as a career, and a miss remembers it |
| PricesFlow.MateriaStep | components/chatbot/flows/pricesFlow.ts:198-208 | inside the subject flow "Consultar otra materia", "Ver aranceles por carrera" and "Ver precios de trámites" open the subject, career and procedure lists before any lookup; other non-navigation text is looked up as a subject, and a miss remembers it |
| PricesFlow.TramiteStep | components/chatbot/flows/pricesFlow.ts:210-220 | inside the procedure flow "Consultar otro trámite", "Ver aranceles por carrera" and "Ver costos de materias" open the procedure, career and subject lists before any lookup; other non-navigation text is looked up as a procedure, and a miss remembers it |
| PricesFlow.MenuStep | components/chatbot/flows/pricesFlow.ts:222-238 | with no flow "Arancel por carrera", "Costo de materias" and "Precio de trámites" open the career, subject and procedure lists; any other text gets NotRecognised, whose context has flow 'carrera' as written |
| PricesFlow.MenuStepMiss | components/chatbot/flows/pricesFlow.ts:222-238 | with no flow, text is a miss exactly when it is not one of the three kinds of query |
| PricesFlow.HandleUserResponse | components/chatbot/flows/pricesFlow.ts:170-240 | "Volver" goes back to the first menu, "Menú principal" leaves the branch, and every reply stays within the prices branch |
| PricesFlow.ValueIsLookedUp | components/chatbot/flows/pricesFlow.ts:185-220 | in a flow, text that is not one of its navigation phrases is looked up in that flow's table |
| PricesFlow.MissKeepsFlow | components/chatbot/flows/pricesFlow.ts:63-72 | a lookup that finds nothing keeps the flow it was made in |
| PricesFlow.MenuButtonsMisread | components/chatbot/flows/pricesFlow.ts:33-238 | as written, each of the three kinds of query pressed on the first menu, or after "not recognised", is looked up as a career name and reported as not found |
| PricesFlow.MenuButtonsUnderstood | components/chatbot/flows/pricesFlow.ts:172-232 | with the first menu setting no flow, every button it offers is understood and sets a new context |
| PricesFlow.OfferedCareerFound | components/chatbot/flows/pricesFlow.ts:45-80 | every career offered for choosing is found and answered |
| PricesFlow.OfferedSubjectFound | components/chatbot/flows/pricesFlow.ts:85-124 | every subject offered for choosing is found and answered |
| PricesFlow.OfferedProcedureFound | components/chatbot/flows/pricesFlow.ts:129-165 | every procedure offered for choosing is found and answered |
| PricesFlow.FeeQuoted | components/chatbot/flows/pricesFlow.ts:75-76 | the fee quoted for a career reads back, as decimal digits, as that career's fee in the table |
| CurriculumFlow.NamesListed | components/chatbot/flows/curriculumFlow.ts:4-40 | the plan holds four subjects, in this order |
| CurriculumFlow.SubjectNamed | components/chatbot/flows/curriculumFlow.ts:74 | finds a subject exactly when the name is in the plan, and the subject found carries that name |
| CurriculumFlow.LevelNames | components/chatbot/flows/curriculumFlow.ts:123-125 | filtering the plan by year gives "Matemática I" and "Programación I" for the first year, "Programación II" for the second, "Bases de Datos" for the third, and nothing otherwise |
| CurriculumFlow.SubjectsOf | components/chatbot/flows/curriculumFlow.ts:123-125 | lists exactly the names of the plan's subjects of that year in plan order: "Matemática I" and "Programación I" for the first year, "Programación II" for the second, "Bases de Datos" for the third, nothing for any other year |
| CurriculumFlow.FormatCorrelativas | components/chatbot/flows/curriculumFlow.ts:88-91 | no names give "Ninguna"; otherwise the text starts with the first name |
| CurriculumFlow.FormatReadsBack | components/chatbot/flows/curriculumFlow.ts:88-91 | a non-empty list of names without commas is read back from its text by splitting at ", " |
| CurriculumFlow.InitialSelection | components/chatbot/flows/curriculumFlow.ts:46-53 | offers both ways to search and "Volver" and is not a miss; as written it already enters the subject flow, corrected it sets a curriculum context with no flow |
| CurriculumFlow.MateriaSelection | components/chatbot/flows/curriculumFlow.ts:58-68 | enters the subject flow offering exactly "Matemática I", "Programación I", "Programación II", "Bases de Datos" and "Volver", in that order |
| CurriculumFlow.MateriaFlow | components/chatbot/flows/curriculumFlow.ts:73-103 | a miss exactly when the subject is not in the plan; a miss stays in the subject flow remembering the name, an answer gives that subject's prerequisites and clears the context |
| CurriculumFlow.NivelSelection | components/chatbot/flows/curriculumFlow.ts:108-117 | enters the year flow offering the four years and "Volver" |
| CurriculumFlow.NivelFlow | components/chatbot/flows/curriculumFlow.ts:122-148 | a miss exactly when the year has no subjects, remembering the year; otherwise lists its subjects as buttons with "Consultar otro nivel" and "Menú principal", entering the subject flow as written and the year flow corrected |
| CurriculumFlow.NotRecognised | components/chatbot/flows/curriculumFlow.ts:196-201 | a reply opening "Opción no reconocida" that offers the first menu again, with the same context as the first menu: flow 'materia' as written, no flow corrected |
| CurriculumFlow.MateriaStep | components/chatbot/flows/curriculumFlow.ts:168-176 | inside the subject flow "Consultar otra materia" and "Ver por nivel" open the subject and year lists; any other text that is not "Volver" or "Menú principal" is looked up as a subject |
| CurriculumFlow.NivelStep | components/chatbot/flows/curriculumFlow.ts:178-186 | inside the year flow "Consultar otro nivel" opens the year list; other non-navigation text is answered as a subject when it names one and otherwise listed as a year |
| CurriculumFlow.MenuStep | components/chatbot/flows/curriculumFlow.ts:188-201 | with no flow "Por materia" and "Por nivel" open the subject and year lists; any other text that is not "Volver" or "Menú principal" gets NotRecognised |
| CurriculumFlow.MenuStepMiss | components/chatbot/flows/curriculumFlow.ts:188-201 | with no flow, text is a miss exactly when it is neither "Por materia" nor "Por nivel" |
| CurriculumFlow.HandleUserResponse | components/chatbot/flows/curriculumFlow.ts:153-203 | "Volver" goes back to the first menu, "Menú principal" leaves the branch, and every reply stays within the curriculum branch |
| CurriculumFlow.ValueIsLookedUp | components/chatbot/flows/curriculumFlow.ts:168-186 | in a flow, text that is not one of its navigation phrases is looked up: as a subject in the subject flow, and in the year flow as a subject when it names one, else as a year |
| CurriculumFlow.MissKeepsFlow | components/chatbot/flows/curriculumFlow.ts:76-85 | a lookup that finds nothing sets a flow and remembers what was asked |
| CurriculumFlow.MenuButtonsMisread | components/chatbot/flows/curriculumFlow.ts:46-201 | as written, "Por materia" and "Por nivel" pressed on the first menu, or after "not recognised", are looked up as subject names and reported as not found |
| CurriculumFlow.OtherLevelMisread | components/chatbot/flows/curriculumFlow.ts:122-176 | as written, "Consultar otro nivel", offered under a year listing, is looked up as a subject name and reported as not found |
| CurriculumFlow.OtherLevelReadAsSubject | components/chatbot/flows/curriculumFlow.ts:168-176 | in the subject flow "Consultar otro nivel" is taken for a subject name and not found |
| CurriculumFlow.MenuButtonsUnderstood | components/chatbot/flows/curriculumFlow.ts:155-196 | with the first menu setting no flow, every button it offers is understood and sets a new context |
| CurriculumFlow.LevelButtonsUnderstood | components/chatbot/flows/curriculumFlow.ts:122-186 | every button a year listing offers is understood; as written except "Consultar otro nivel", corrected all of them |
| CurriculumFlow.OtherLevelUnderstood | components/chatbot/flows/curriculumFlow.ts:178-181 | in the year flow "Consultar otro nivel" lists the years again |
| CurriculumFlow.SubjectAnswered | components/chatbot/flows/curriculumFlow.ts:168-186 | in either flow the name of a subject is answered with its prerequisites and the context is cleared |
| CurriculumFlow.OfferedSubjectFound | components/chatbot/flows/curriculumFlow.ts:58-103 | every subject offered for choosing is found and answered |
| CurriculumFlow.YearsWithSubjects | components/chatbot/flows/curriculumFlow.ts:4-40 | exactly the first three years have subjects |
| CurriculumFlow.OfferedLevelListed | components/chatbot/flows/curriculumFlow.ts:108-186 | every year offered for choosing is listed, and only "Cuarto Año" comes back as a miss |
| CurriculumFlow.PrerequisitesEarlier | components/chatbot/flows/curriculumFlow.ts:4-40 | every prerequisite is a subject of the plan, of an earlier year |

## Left out

- Network and file access: `fetch`, the file listings, `XLSX.read` and `sheet_to_json`. Each parser and loader takes the rows, or the list of file names, as a parameter. A response that is not ok is a parameter too (`None` in `ReadCorrelativas` and `LoadSchedule`, an error in the hooks' `Load`), and it selects the error path. Errors thrown inside `XLSX.read` are not modelled.
- React state mechanics: `useState`, `useEffect`, `useMemo`, batching and stale closures. Each component's state is the fields of a class. Each effect and memo is a method or function that the caller invokes explicitly.
- Timers, as elapsed time: the 300 ms animation cooldown, the 3000 ms and 4000 ms automatic clearing of a warning or highlight, and the staggered lamp-off timeouts. Each timer callback is a method that a caller may invoke at any moment (`AnimationEnds`, `HighlightExpires`, `WarningExpires`), so `isAnimating` and the warnings are state that only those methods clear, and no delay is measured.
- `console.error` logging: it is dropped.
- Rendering and framer-motion animation. This covers every page and presentational component, `SubjectLamp`, the calendar's pixel positions and heights (`calculatePosition`, `calculateHeight`, which use floating point), the donation bar, payment, QR, e-mail and database code, `careerService`, and the `useChatlogic` dispatch, which only delegates to the modelled routers.
- Strings.ToNumber: only an optionally signed run of decimal digits, with surrounding blanks, has a value. An empty cell reads as 0. Decimals such as "1.5", exponents, hexadecimal and "Infinity" read as NaN, although JavaScript's `Number` accepts them.
- Key order of JavaScript objects. `Grouping`, `SubjectGrid` and the dependency-state record keep their keys in insertion order. JavaScript enumerates integer-like keys, such as the year numbers, first and in ascending order. Where the program enumerates keys, the model sees insertion order: the unsorted year order of the lamp board's rendering, which is left out, and the first key taken at components/correlativas/useCorrelativas.ts:175. The two orders differ only for integer-like keys; `SubjectGrid` sorts its year and term keys explicitly.
- StringOrder: it compares strings by code point. JavaScript's default sort compares UTF-16 code units. The two orders differ only for characters outside the Basic Multilingual Plane, which file names and schedule cells do not contain.
- The algorithm of `Array.prototype.sort`. The default string sort of the Redes scan is modelled by `StringOrder.Sort`, which gives the same result (sorted and a permutation). For the year and term comparators of `SubjectGrid`, the model proves they order the keys that grouping produces; the sort itself is not modelled.
- Strings are sequences of characters. An emoji in a chat reply is one character here but two UTF-16 code units in JavaScript. No modelled property depends on text length.
- Chat context flows and kinds are enumerations. A `context.flow` string the routers never write is not representable; it would take the default branch, as `None` does here.
- `lib/readCorrelativas.ts` yields one `correlativas` list per course, while `useCorrelativas` reads `aprobadas` and `regularizadas`. `CorrelativasReader` returns the single list as the reader builds it. The four-state engine takes the two lists as given.
- LampEngine.BuildDependencyChain: a root named "" is treated like any other root. The source's `!root` test stops the chain there instead. The reader drops empty prerequisite names (`CorrelativasReader.NameListClean`), and a root is always a prerequisite, so no root is named "".
- Correlativas.Coherent: the stronger claim that a course at "semi" or above has its prerequisites met is false. A demoted course keeps "semi" while unsatisfied, by design (components/correlativas/useCorrelativas.ts:105-106). The model proves the weaker coherence instead: regular or on only when satisfied, off only when not.
- CascadeOnStable: the cascade is not idempotent on maps that are not stable. Running it a second time from the same course can change the map again, as `CascadeProperties.CascadeTwiceDiffers` shows, so idempotence is proved only for stable maps.
- RedesSchedule.NotFound: `toLowerCase` is modelled for the letters A to Z only. Accented capitals in a year or division would stay upper-case here; the file names in use have none.
- Correlativas.Recompute: "a regular course drops to semi, never to off" holds for each recomputation only. Over a whole cascade a regular course can end "off": one demoted prerequisite recomputes it to "semi", and a second one recomputes it to "off".
- CorrelativasHook.SettleInitial, CorrelativasHook.SettleAndCascade, CorrelativasHook.Hook.Initialize: these require distinct course names. With a repeated name the source loop does not terminate, as `CorrelativasHook.TwinsNeverSettle` shows, and a terminating method cannot model it. `CorrelativasHook.SettlePass` and `CorrelativasHook.Pass` do not require it.

## Findings

| source | as written | input that shows it | evidently intended | confidence | as-written member | corrected member |
|---|---|---|---|---|---|---|
| components/CorrelativasVisual.tsx:162-178 | propagation sets every transitive dependent to the new value, without checking the dependent's other prerequisites | courses A and B without prerequisites and C needing both, all dark; click A: C is lit although B is dark | light a dependent only when all its prerequisites are lit, so a consistent board stays consistent | not executed | LampBoard.RelightAsWritten | LampBoard.FlipChecked |
| lib/parseSchedule.ts:28-36 | the times are the first cell split at every "a", parts 0 and 1 | "8:00 a 9:20 (tarde)": the end comes out as "9:20 (t" | take the start and end clocks of the range the row guard matched | not executed | LibSchedule.SplitCutsAtLaterA | LibSchedule.CorrectedTimesAreClocks |
| components/sections/redes/RedesScheduleFragment.tsx:136-140 | the classroom is removed with a string replace, which removes the first copy of the matched text | "Redes (Lab 2) y Taller (Lab 2)": the subject becomes "Redes  y Taller (Lab 2)", with two blanks | cut the cell at the match, giving subject "Redes (Lab 2) y Taller" | not executed | RedesSchedule.ReplaceCutsEarlierCopy | RedesSchedule.AulaRoundTrip |
| components/chatbot/flows/pricesFlow.ts:33-238 | the first menu, and the "not recognised" reply, already set flow 'carrera' | pressing "Costo de materias" on the first menu: it is looked up as a career name and reported as not found | the first menu sets no flow, so its three buttons open their flows | not executed | PricesFlow.MenuButtonsMisread | PricesFlow.MenuButtonsUnderstood |
| components/chatbot/flows/curriculumFlow.ts:46-201 | the first menu, and the "not recognised" reply, already set flow 'materia' | pressing "Por nivel" on the first menu: it is looked up as a subject name and reported as not found | the first menu sets no flow, so both buttons open their flows | not executed | CurriculumFlow.MenuButtonsMisread | CurriculumFlow.MenuButtonsUnderstood |
| components/chatbot/flows/curriculumFlow.ts:139-147 | a year listing switches the flow to 'materia' | under "Primer Año", pressing the offered "Consultar otro nivel": it is looked up as a subject name and reported as not found | the listing stays in flow 'nivel', where "Consultar otro nivel" lists the years again | not executed | CurriculumFlow.OtherLevelMisread | CurriculumFlow.LevelButtonsUnderstood |
| components/correlativas/useCorrelativas.ts:154-173 | the settle loop repeats while a pass changed any lamp, and lamps are keyed by course name | two courses named "X", one needing an absent "Y" and one needing nothing: every pass sets "X" off, then semi, and reports a change, so the loop never ends | course names are unique, and the loop reaches a fixpoint | not executed | CorrelativasHook.TwinsNeverSettle | CorrelativasHook.SettleInitial |
