# ProjectAM note-link graph, streaks and record stores in Dafny

This project models the core of ProjectAM, a personal productivity app. It
has notes, tasks, habits and a diary. The centre is the **note-link graph**:

- notes reference each other explicitly, through `linkedNoteIds`;
- notes also reference each other by title, with `[[Title]]` markers in
  their content.

The graph service turns a list of notes into nodes and weighted links. The
notes route serves the same graph. The graph view filters it by a search
term and a tag. Around the graph sit:

- the habit streak arithmetic;
- the diary streak and mood statistics;
- four keyed record stores, for tasks and diary entries on the web and on
  the desktop. Each reads a list, changes it and writes it back.

Modules, one per source file plus shared helpers:

- `Seqs` (`seqs.dfy`): the JavaScript array operations the code uses
  (`filter`, `map`, `find`, `findIndex`, `new Set`), stated with subsequence and
  no-duplicate predicates.
- `Text` (`text.dfy`): `String.prototype.trim`, ASCII lower-casing,
  `includes`, and the title/content/tag search predicate.
- `Backlinks` (`backlinks.dfy`): the `[[…]]` scan of `extractBacklinks`.
  The regular expression `/\[\[([^\]]+)\]\]/g` becomes a character scanner.
  `GroupsFrom` finds the untrimmed first groups. `Extract` trims each one
  and is the specification; `ExtractBacklinks` is the while loop, proved
  equal to it.
- `NoteGraph` (`graph.dfy`): the `getGraphData` nodes and links. The nested
  loops are methods proved equal to left folds. Lemmas about the folds
  prove endpoint presence, strengths, the duplicate check on title links,
  completeness, and that explicit links are never deduplicated.
- `NoteService` (`note_service.dfy`): the search and tag filters,
  `getBacklinks` and the title merge of `updateWithBacklinks`. A
  `NoteStore` class holds the note list; its methods are create, update,
  delete and update-with-backlinks.
- `NotesRoute` (`notes_route.dfy`): the `GET /api/notes` branch logic.
  That file contains copies of `generateGraphData`, `extractBacklinks` and
  `getNodeColor`. The copies are textually the same as the service's
  functions, and `GenerateGraphData` and `ExtractBacklinks` are modelled by
  delegating to the service's members. Only `NodeColor` is written out
  again and proved equal to the service's colour choice.
- `NotesGraphView` (`notes_graph_view.dfy`): the tag list, the node and
  link filter projection, and the drag pin / reheat state.
- `HabitService` (`habits.dfy`): the backward day walk of `markComplete`
  and `markIncomplete`, the week-progress array, and the habit list
  update and delete.
- `DiaryStats` (`diary_stats.dfy`): `getMoodStats` and `getStreakInfo`.
  The entries are passed in as a parameter.
- `Tasks` (`tasks.dfy`), `TaskService` (`task_store.dfy`) and
  `ElectronTaskService` (`electron_task_store.dfy`): the task record, its
  shared list operations, and the two task stores. The desktop store's
  `getByDate` and `getByQuadrant` (electron/services/TaskService.js,
  lines 58-66) are the same filters as the web store's, so both are
  modelled by `Tasks.ByDate` and `Tasks.ByQuadrant`.
- `Diary` (`diary.dfy`), `DiaryServer` (`diary_store.dfy`) and
  `ElectronDiaryService` (`electron_diary_store.dfy`): the diary entry
  record, its shared list operations, and the two diary stores. The
  desktop store's `getByDate`, `getByMood` and `searchEntries`
  (electron/services/DiaryService.js, lines 64-83) are the same filters as
  the web store's, so both are modelled by `Diary.ByDate`, `Diary.ByMood`
  and `Diary.Search`.

Conventions:

- Dates are whole day numbers. "Today", today's weekday, the current time
  and freshly generated ids are parameters.
- Node sizes and link strengths are `real`s.
- A missing value (`undefined` or `null`) is `None`.
- Each storage file (`db.read` / `db.write`) becomes a sequence field on a
  store class.

Two points where the model follows what the code does:

- Both graph builders carry the comment `// Avoid duplicate links`
  (src/services/NoteService.ts line 138, src/app/api/notes/route.ts
  line 73), which suggests at most one edge per pair of notes. Only the
  title (0.8) branch, where the comment stands, checks for an earlier
  link. Explicit (1.0) links are pushed with no check, so they can repeat,
  be self-loops, or duplicate an earlier title link.
  `NoteGraph.ExplicitLinkCount` proves that the number of 1.0 links is
  exactly the number of present-id entries in the notes' `linkedNoteIds`.
- The Supabase diary statistics use the moods
  great/good/neutral/bad/terrible. The JSON diary stores validate against a
  schema with happy/neutral/sad/excited. The two are separate datatypes,
  `DiaryStats.Mood` and `Diary.EntryMood`.

## Model

| member | source | states |
|---|---|---|
| Backlinks.RunEnd | src/services/NoteService.ts:78 | the `[^\]]+` run ends at the first `]` or at the end of the text |
| Backlinks.MatchesAtIsRegexMatch | src/services/NoteService.ts:78 | a scanner match at `i` is exactly `[[`, a non-empty run without `]`, then `]]` |
| Backlinks.ExtractBacklinks | src/services/NoteService.ts:77-87 | the `exec` while loop returns exactly `Extract(content)`: the trimmed inner texts, left to right, duplicates kept |
| Backlinks.NoCloseBracket | src/services/NoteService.ts:78 | no extracted reference contains `]` |
| Backlinks.NoOpenerNoReferences | src/services/NoteService.ts:82-86 | text in which no `[[` opens gives no references |
| Backlinks.GroupsFromEmpty | src/services/NoteService.ts:82-86 | the scan from a position collects nothing exactly when the pattern matches nowhere from there on |
| Backlinks.ReferencesIffMatch | src/services/NoteService.ts:77-87 | a text yields no references exactly when the pattern matches nowhere in it |
| Backlinks.SkipPlain | src/services/NoteService.ts:82 | the scan passes over text without `[` and finds the same groups after it |
| Backlinks.GroupsFromShift | src/services/NoteService.ts:82-84 | scanning is independent of a prefix that the scan has already passed |
| Backlinks.MarkerExtracted | src/services/NoteService.ts:82-84 | a first marker `[[x]]` after `[`-free text contributes `Trim(x)`, then the scan continues after it |
| Backlinks.SingleReference | src/services/NoteService.ts:77-87 | text with one `[[Title]]` marker and no other `[` yields exactly `[Title]` |
| Text.TrimSpec | src/services/NoteService.ts:83 | `trim()` removes exactly the leading and trailing white space |
| Text.TrimIs | src/services/NoteService.ts:83 | the trimmed text is the slice between the outer white space |
| Text.Lower | src/services/NoteService.ts:56 | lower-casing keeps the length and maps `A`–`Z` to `a`–`z` |
| Text.EmptyQueryMatches | src/services/NoteService.ts:57-61 | the empty query matches every record |
| NoteGraph.NodeSize | src/services/NoteService.ts:115 | the size is in [10, 30]: 10 up to 500 characters, 30 from 1500, `length / 50` between |
| NoteGraph.NodeColorByPriority | src/services/NoteService.ts:159-166 | the colour is that of the first tag present in project > meeting > idea > important > daily, and teal exactly when none is present |
| NoteGraph.Nodes | src/services/NoteService.ts:111-117 | one node per note, in note order, with its id, title, tags, the size `NodeSize` gives its content length (in [10, 30]) and its tag colour |
| NoteGraph.IndexOfId | src/services/NoteService.ts:37 | the first index holding the id, or -1 exactly when no note has it |
| NoteGraph.FindById | src/services/NoteService.ts:92 | the first note with the id, or none exactly when no note has it |
| NoteGraph.FindByTitle | src/services/NoteService.ts:136 | the first note with the title, or none exactly when no note has it |
| NoteGraph.PushExplicitLinks | src/services/NoteService.ts:123-131 | the inner loop adds a strength-1 link for each listed id that names a note |
| NoteGraph.PushBacklinks | src/services/NoteService.ts:133-134 | the titles looped over are exactly `Extract(content)`, and the links built from them are those of `AddBacklinks` |
| NoteGraph.PushTitleLinks | src/services/NoteService.ts:135-151 | the inner loop adds a 0.8 link for each resolved title, unless it is a self-loop or an earlier link joins the pair |
| NoteGraph.BuildGraph | src/services/NoteService.ts:110-156 | the nested loops build exactly `GraphOf(notes)` |
| NoteGraph.GraphLinksValid | src/services/NoteService.ts:121-153 | every link joins two present notes; strengths are 1 or 0.8; 1-links come from `linkedNoteIds`, 0.8-links from title markers; a 0.8-link is never a self-loop and no earlier link joins its pair |
| NoteGraph.LinksUpToValid | src/services/NoteService.ts:121-153 | the link list after any number of outer iterations satisfies the link invariant |
| NoteGraph.LinksUpToGrows | src/services/NoteService.ts:119-153 | links are only appended: each iteration's list is a prefix of later ones |
| NoteGraph.ExplicitLinkPresent | src/services/NoteService.ts:123-130 | every listed id that names a note gives a strength-1 link |
| NoteGraph.BacklinkJoined | src/services/NoteService.ts:134-151 | every marker that resolves to another note leaves the two notes joined by some link |
| NoteGraph.ExplicitLinkCount | src/services/NoteService.ts:123-130 | the number of strength-1 links equals the number of present-id entries, so explicit links are never deduplicated |
| NoteService.SearchByContent | src/services/NoteService.ts:54-62 | an order-preserving subsequence; a note is kept iff its title, content or a tag contains the query, ignoring case; each kept element occurs as often as in the input |
| NoteService.GetByTag | src/services/NoteService.ts:64-67 | an order-preserving subsequence; a note is kept iff it carries the tag exactly; each kept element occurs as often as in the input |
| NoteService.GetBacklinks | src/services/NoteService.ts:90-103 | `[]` for an unknown id; otherwise the subsequence of notes that list the id or mention the target's exact title, each as often as in the input |
| NoteService.SelfReferenceIsBacklink | src/services/NoteService.ts:95-102 | a target that mentions its own title is among its own backlinks |
| NoteService.BacklinkHasEdge | src/services/NoteService.ts:95-102 | a backlink other than the target is joined to it by a graph link when the target is the first note with its title |
| NoteService.MergeTitleLinks | src/services/NoteService.ts:177-185 | the loop returns exactly `MergeTitles` of the base list and the extracted titles |
| NoteService.MergeTitlesAdds | src/services/NoteService.ts:177-185 | the base list is kept as a prefix; every added id is new and is the first title match of some extracted title |
| NoteService.MergeTitlesCovers | src/services/NoteService.ts:180-184 | every extracted title that names a note has that note's id in the result |
| NoteService.MergeTitlesNoDup | src/services/NoteService.ts:182 | a base list without repeats stays without repeats |
| NoteService.MergeTitlesStable | src/services/NoteService.ts:182 | a list that already holds every resolved id is returned unchanged |
| NoteService.MergeTitlesIdempotent | src/services/NoteService.ts:175-188 | merging the same titles twice equals merging them once |
| NoteService.PatchWithBacklinks | src/services/NoteService.ts:174-188 | without non-empty content the patch is unchanged; otherwise only `linkedNoteIds` changes: the patch's list, else the note's, stays a prefix, each appended id is new and is the first note bearing a referenced title, every referenced title naming a note has its id there, and no repeats are introduced |
| NoteService.Merge | src/services/NoteService.ts:40 | field by field, a field the patch supplies wins and a missing one is kept; `updatedAt` is now |
| NoteService.NoteStore.Create | src/services/NoteService.ts:17-33 | appends one note with the fresh id and time and empty lists for missing tags and links |
| NoteService.NoteStore.Update | src/services/NoteService.ts:35-45 | unknown id: nothing changes; otherwise only the first matching position becomes the merge |
| NoteService.NoteStore.Delete | src/services/NoteService.ts:47-52 | removes every note with the id; true iff some note had it |
| NoteService.NoteStore.UpdateWithBacklinks | src/services/NoteService.ts:169-191 | unknown id: nothing; otherwise the update with the backlink-merged patch |
| NotesRoute.FilterNotes | src/app/api/notes/route.ts:22-37 | an order-preserving subsequence; kept iff it passes the search (when given) and carries the tag (when given); neither gives all notes; each kept element occurs as often as in the input |
| NotesRoute.Get | src/app/api/notes/route.ts:8-42 | `graph=true` gives the graph of all notes, ignoring the filters; otherwise the filtered notes |
| NotesRoute.GenerateGraphData | src/app/api/notes/route.ts:45-91 | equals the service's graph; node count equals note count; sizes in [10, 30]; only present ids are linked |
| NotesRoute.ExtractBacklinks | src/app/api/notes/route.ts:94-104 | agrees with the service's extraction on every input; no result contains `]` |
| NotesRoute.NodeColor | src/app/api/notes/route.ts:107-114 | agrees with the service's colour choice on every tag list |
| NotesGraphView.AllTagOccurrences | src/components/features/NotesGraph.tsx:37 | `flatMap` holds exactly the tags of the nodes |
| NotesGraphView.AllTagOccurrencesAppend | src/components/features/NotesGraph.tsx:37 | the occurrences of a concatenation are the concatenated occurrences, and one node contributes its own tags in order: the `flatMap` |
| NotesGraphView.AllTags | src/components/features/NotesGraph.tsx:37 | every tag of every node, each exactly once, in the order the nodes first mention them |
| NotesGraphView.FilteredNodes | src/components/features/NotesGraph.tsx:40-48 | an order-preserving subsequence; kept iff (empty search, or title or a tag contains it ignoring case) and (empty tag, or the tag is present); each kept element occurs as often as in the input |
| NotesGraphView.NoFilterKeepsAll | src/components/features/NotesGraph.tsx:41-45 | empty search and empty tag keep every node |
| NotesGraphView.FilteredLinks | src/components/features/NotesGraph.tsx:51-56 | an order-preserving subsequence; a link is kept iff both ends are shown nodes; each kept element occurs as often as in the input |
| NotesGraphView.FilteredLinksClosed | src/components/features/NotesGraph.tsx:40-56 | every kept link joins two nodes that pass the filter |
| NotesGraphView.UnfilteredGraphKeepsLinks | src/components/features/NotesGraph.tsx:51-56 | with no filter every link of the graph of a note list is kept |
| NotesGraphView.Simulation.DragStarted | src/components/features/NotesGraph.tsx:111-115 | with no other drag active `alphaTarget` becomes 0.3 and the simulation runs; the node is pinned where it is |
| NotesGraphView.Simulation.Dragged | src/components/features/NotesGraph.tsx:116-119 | the pin moves to the pointer |
| NotesGraphView.Simulation.DragEnded | src/components/features/NotesGraph.tsx:120-124 | with no other drag active `alphaTarget` becomes 0; the pin is cleared |
| NotesGraphView.GraphView.Reheat | src/components/features/NotesGraph.tsx:220-224 | with a simulation, alpha becomes 1 and it runs; without one nothing changes |
| HabitService.RunLength | src/services/HabitService.ts:93-103 | the run of completed days ending at a day: all of them completed, the day before it not |
| HabitService.StreakEndingAt | src/services/HabitService.ts:93-103 | the backward while loop returns exactly that run |
| HabitService.RunIgnoresLaterDay | src/services/HabitService.ts:90-103 | changing a later day does not change the run ending earlier |
| HabitService.CompletingExtendsRun | src/services/HabitService.ts:90-103 | after completing `date` the streak is one more than the run ending the day before, so at least 1 |
| HabitService.CalculateCurrentWeekProgress | src/services/HabitService.ts:21-35 | exactly 7 flags; flag i is the completion of this week's Sunday plus i days |
| HabitService.GetHabitsForDate | src/services/HabitService.ts:170-173 | an order-preserving subsequence; a habit is kept iff it is completed on the date; each kept element occurs as often as in the input |
| HabitService.Merge | src/services/HabitService.ts:70 | field by field, a field the patch supplies (id and creation time included) wins and a missing one is kept; `updatedAt` is now |
| HabitService.IndexOfId | src/services/HabitService.ts:67 | the first index with the id, or -1 exactly when there is none |
| HabitService.HabitStore.Update | src/services/HabitService.ts:65-75 | unknown id: nothing; invalid result: rejected, nothing written; otherwise only that position changes |
| HabitService.HabitStore.Delete | src/services/HabitService.ts:77-82 | removes every habit with the id; true iff some habit had it |
| HabitService.HabitStore.MarkComplete | src/services/HabitService.ts:84-125 | unknown id: nothing; otherwise only that position changes, to the habit with `date` completed, the streak set to the run ending at `date`, the best streak raised to it, the total one higher, the week flags recomputed and `updatedAt` now; every other field is kept |
| HabitService.HabitStore.MarkIncomplete | src/services/HabitService.ts:127-168 | unknown id: nothing; otherwise only that position changes, to the habit with `date` removed, the streak 0, the total `max(0, total - 1)`, the week flags recomputed and `updatedAt` now; every other field, the best streak included, is kept |
| DiaryStats.MoodStats | src/services/DiaryService.ts:192-206 | all five moods are keys; each holds the number of entries with that mood |
| DiaryStats.MoodCountsSum | src/services/DiaryService.ts:192-206 | the five counts add up to the number of entries that have a mood |
| DiaryStats.DaysRun | src/services/DiaryService.ts:229-248 | the run of days with an entry ending at a day: all have one, the day before has none |
| DiaryStats.CurrentStreak | src/services/DiaryService.ts:229-248 | the walk back from today returns exactly that run, 0 when today has no entry |
| DiaryStats.SortDates | src/services/DiaryService.ts:222 | the sorted dates are ascending and a permutation of the input |
| DiaryStats.InsertSorted | src/services/DiaryService.ts:222 | inserting into a sorted list keeps it sorted |
| DiaryStats.RunEndingAt | src/services/DiaryService.ts:251-264 | the consecutive stretch ending at a position is maximal to the left |
| DiaryStats.LongestIsLongest | src/services/DiaryService.ts:251-266 | `LongestUpTo` is the length of some consecutive stretch, and no stretch is longer |
| DiaryStats.BestRun | src/services/DiaryService.ts:251-266 | the for loop returns the longest consecutive stretch of the sorted dates |
| DiaryStats.GetStreakInfo | src/services/DiaryService.ts:213-272 | no entries gives (0, 0); otherwise the current streak is today's run and the best is the longer of it and the longest stretch; best ≥ current, and best ≥ 1 |
| Tasks.MergeLaws | src/services/TaskService.ts:37 | an empty patch only refreshes `updatedAt`; applying a patch twice equals applying it once |
| Tasks.IndexOfId | src/services/TaskService.ts:35 | the first index with the id, or -1 exactly when there is none |
| Tasks.WithoutId | src/services/TaskService.ts:45-47 | an order-preserving subsequence without the id; shorter iff some task had it, and unchanged otherwise; each kept element occurs as often as in the input |
| Tasks.ByDate | src/services/TaskService.ts:49-52 | an order-preserving subsequence; kept iff the calendar date equals the argument; each kept element occurs as often as in the input |
| Tasks.ByQuadrant | src/services/TaskService.ts:53-56 | an order-preserving subsequence; kept iff the quadrant equals the argument, where no quadrant matches no quadrant; each kept element occurs as often as in the input |
| Tasks.LinkNoteAdds | src/services/TaskService.ts:62-69 | after a link the note is linked; the old links are a prefix; at most one id is added; no repeats are introduced; nothing else changes but `updatedAt` |
| Tasks.LinkNoteIdempotent | src/services/TaskService.ts:62-69 | linking the same note twice equals linking it once |
| TaskService.TaskStore.Create | src/services/TaskService.ts:16-32 | appends one task with the fresh id and time, never completed, and empty lists for missing links and tags |
| TaskService.TaskStore.Update | src/services/TaskService.ts:33-42 | unknown id: nothing; otherwise only the first matching position becomes the merge |
| TaskService.TaskStore.Delete | src/services/TaskService.ts:43-48 | the list without the id; true iff some task had it |
| TaskService.TaskStore.LinkToNote | src/services/TaskService.ts:57-70 | unknown id: nothing; otherwise that position becomes the linked task, and an already linked note leaves the list unchanged |
| ElectronTaskService.TaskStore.Create | electron/services/TaskService.js:18-34 | appends one task; completed only if the caller said so; empty lists for missing links and tags |
| ElectronTaskService.TaskStore.Update | electron/services/TaskService.js:36-49 | unknown id: nothing; otherwise only the first matching position becomes the merge |
| ElectronTaskService.TaskStore.Delete | electron/services/TaskService.js:51-56 | the list without the id; true iff some task had it |
| ElectronTaskService.TaskStore.LinkToNote | electron/services/TaskService.js:68-81 | unknown id: nothing; otherwise the idempotent append at that position |
| Diary.MergeValidity | src/services/DiaryService.server.ts:41-47 | a patch touching neither title nor content keeps a valid entry valid; one that empties either is rejected |
| Diary.IndexOfId | src/services/DiaryService.server.ts:37 | the first index with the id, or -1 exactly when there is none |
| Diary.WithoutId | src/services/DiaryService.server.ts:55 | an order-preserving subsequence without the id; shorter iff some entry had it, and unchanged otherwise; each kept element occurs as often as in the input |
| Diary.ByDate | src/services/DiaryService.server.ts:65-68 | an order-preserving subsequence; kept iff the date equals the argument; each kept element occurs as often as in the input |
| Diary.ByMood | src/services/DiaryService.server.ts:70-73 | an order-preserving subsequence; kept iff the mood equals the argument; each kept element occurs as often as in the input |
| Diary.Search | src/services/DiaryService.server.ts:75-83 | an order-preserving subsequence; kept iff title, content or a tag contains the query, ignoring case; each kept element occurs as often as in the input |
| Diary.EmptySearchKeepsAll | src/services/DiaryService.server.ts:75-83 | the empty query keeps every entry |
| DiaryServer.DiaryStore.Create | src/services/DiaryService.server.ts:17-33 | an empty title or content is rejected with nothing written; otherwise one entry is appended, with empty lists for missing tags and links |
| DiaryServer.DiaryStore.Update | src/services/DiaryService.server.ts:35-51 | unknown id: not found; an invalid merge: rejected, nothing written; otherwise only that position changes |
| DiaryServer.DiaryStore.Delete | src/services/DiaryService.server.ts:53-63 | false and nothing written when no entry has the id; otherwise all such entries go and the answer is true |
| ElectronDiaryService.DiaryStore.Create | electron/services/DiaryService.js:18-33 | appends one entry without validation, with empty lists for missing tags and links |
| ElectronDiaryService.DiaryStore.Update | electron/services/DiaryService.js:35-50 | `null` for an unknown id; otherwise only the first matching position becomes the merge, valid or not |
| ElectronDiaryService.DiaryStore.Delete | electron/services/DiaryService.js:52-62 | false and nothing written when no entry has the id; otherwise all such entries go and the answer is true |

## Left out

- Storage and transport: JSON files, Supabase, HTTP and Electron IPC are
  not modelled. Each store's list is a field, the diary statistics take
  their entries as a parameter, and `GET` takes the note list and the
  query parameters. The `catch` branches that answer 500, `[]` or `{}`
  after an I/O failure are not modelled.
- The d3 force simulation, zoom and rendering, and all UI components: the
  physics is a foreign library working in floating point. Only the pin
  fields and the `alpha`/`alphaTarget`/running state the handlers set are
  modelled.
- Clocks, `Date` and time zones: days are whole numbers, and today, its
  weekday, the time and fresh ids are parameters. The mix of UTC
  `toISOString` and local `setDate`, and the millisecond day difference of
  the diary pass, are therefore not modelled.
- `uuidv4`: fresh ids are parameters; their uniqueness is not modelled.
- Unicode: `toLowerCase` is modelled on ASCII letters only, and
  `includes` as substring search on characters. `NoteGraph.NodeOf` takes
  a note's length as its number of characters, where JavaScript's
  `length` counts UTF-16 code units; the two differ for characters outside
  the Basic Multilingual Plane, and so can the node size.
- The regular expression engine: `extractBacklinks` is modelled as a
  character scanner, with a lemma tying its matches to the pattern's shape.
- Floating point: the node size is computed in exact real arithmetic.
- Schema validation with zod: only rules the types do not already enforce
  are modelled. These are the non-empty diary title and content, and the
  seven-element habit week. A failing parse is a rejected result with
  nothing written.
- Patches: an update's patch field that is present with the value
  `undefined` is treated as absent. `updateWithBacklinks` also writes the
  merged ids into the caller's `updates` object; that change to the
  argument is not modelled.
- `getAll`, `getById` and `getRecent` of every service,
  `HabitService.create`, `getHabitStats` and the per-habit week recompute
  in `getAll`: they are not part of this model.
- The `POST` handlers of the routes are not part of this model.
- The desktop stores' entries carry the same typed fields as the web ones,
  so their lack of validation shows only as accepting empty diary titles
  and contents.
- `Array.prototype.sort` in `getStreakInfo` is modelled by a sorting
  function with a sortedness and permutation contract. The source sorts
  the caller's list in place, which does not change what is computed.
