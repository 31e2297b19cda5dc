# Simplenote import coordination and sidebar, in Dafny

This project models the import coordination of the Simplenote desktop client:

- the **import dialog's drop zone**, which filters the dropped files and reports rejections;
- the **multiple-file importer**, which routes files by extension into three buckets
  (text/Markdown, Simplenote JSON export, Evernote export), starts one conversion engine per
  non-empty bucket, and folds the engines' `status` events into one stream that carries at most
  one aggregate `complete`, emitted when the completions reach the number of engines;
- two small pure parts of the sidebar: the **tag list** (which tags it shows, their order,
  the Edit/Done toggle, per-row flags) and the **navigation bar** (which folder row is
  highlighted, and whether a click outside closes the bar).

Layout, one module per file:

- `wrappers.dfy`: `Option`.
- `files.dfy`: a file and the extension rule shared by the importer and the drop zone.
  The rule is: the text after the last `.`, or the whole name when that text is empty.
- `sequences.dfy`: order-preserving filtering (`Array.prototype.filter` and the program's
  push-if loops) and its lemmas.
- `sorting.dfy`: `Array.prototype.sort` with a comparator.
- `multiple_importer.dfy`: the importer.
- `dropzone.dfy`: the drop zone.
- `tag_list.dfy`: the tag list.
- `navigation_bar.dfy`: the navigation bar.

The importer is stateful, so it is a class. Its three bucket arrays are `seq` fields that the
classification loop appends to. It also keeps two logs:

- `emitted`: the `status` events it has emitted;
- `started`: the engines it has started, each with the bucket it was handed.

Each `importNotes` call has its own counters (`totalImporters`, `totalComplete`,
`importedNoteCount`). In the source these are local variables captured by that call's status
callbacks. Here they are an `ImportRun` object that the call returns, and its `HandleStatus`
method is the callback. The pure fold `Feed` (one `Step` per event) states what any sequence of
callback invocations emits: `ImportRun.Deliver` invokes the callback once per event, in arrival
order, and ends with the counters and output of `Feed` over those events. The lemmas about the
stream are proved against `Feed`.

The drop zone's accept handler is a loop, so it is a method (`FilterAccepted`). It is proved
equal to the specification function `Admit`, and the filtering properties are lemmas about
`Admit`. The component's two state variables and its callbacks are a `Dropzone` class.

Behaviour worth noting, which the model follows:

- The importer keeps **every** `json` and `enex` file. Only the drop zone keeps just the first of
  each.
- Files with any other extension are **dropped** by the importer. They are not treated as
  text. The drop zone passes them on.
- After the aggregate `complete`, the importer does not stop: later events are still forwarded
  and later completions still counted, but no second aggregate `complete` is emitted.
- The buckets are never cleared. A second `importNotes` call on the same importer hands each
  engine the earlier call's files again (`LaterCallRedispatches`).
- An empty array is not falsy. On a fresh importer it starts nothing and emits nothing. On a used
  importer it restarts the engines of the old buckets (`EmptyCallRestartsOldBuckets`).

## Model

| member | source | states |
|---|---|---|
| Files.LastIndexOf | lib/utils/import/multiple/index.ts:40 | the result is -1 or an index holding the character, with no occurrence after it |
| Files.AfterLastDot | lib/utils/import/multiple/index.ts:40 | the text after the last dot is a dot-free suffix of the name, preceded by a dot when the name has one, and the whole name when it has none |
| Files.Extension | lib/utils/import/multiple/index.ts:39-41 | a name without a dot, or ending in a dot, is its own extension; otherwise the extension is the non-empty, dot-free text after the last dot |
| Files.ExtensionAfterDot | lib/dialogs/import/dropzone/index.tsx:27-29 | appending a dot and a dot-free, non-empty extension to any stem yields that extension |
| Files.BareNameExtension | lib/utils/import/multiple/index.ts:39-41 | a name without a dot ("json") is its own extension |
| Files.TrailingDotExtension | lib/utils/import/multiple/index.ts:39-41 | a name ending in a dot ("a.") is its own extension, since the text after the dot is empty |
| Files.DottedNameExtension | lib/utils/import/multiple/index.ts:39-41 | "note1.txt" has the extension "txt" |
| Files.UpperCaseExtension | lib/utils/import/multiple/index.ts:39-41 | "memo.JSON" has the extension "JSON": case is kept |
| MultipleImport.BucketFor | lib/utils/import/multiple/index.ts:43-49 | the bucket an extension selects: `md` and `txt` the text engine, `json` the Simplenote engine, `enex` the Evernote engine, anything else none; compared exactly; see RouteTextFile, RouteIsCaseSensitive, RouteBareName, RouteTrailingDot |
| MultipleImport.Route | lib/utils/import/multiple/index.ts:39-49 | the bucket a file name selects, through its extension; see the Route… example lemmas, RoutingKeepsDuplicates, RoutingPartition |
| MultipleImport.RouteTextFile | lib/utils/import/multiple/index.ts:43-49 | "note1.txt" goes to the text bucket |
| MultipleImport.RouteIsCaseSensitive | lib/utils/import/multiple/index.ts:43-49 | "memo.JSON" goes to no bucket: matching is case-sensitive |
| MultipleImport.RouteBareName | lib/utils/import/multiple/index.ts:43-49 | a file called "json" goes to the Simplenote bucket |
| MultipleImport.RouteTrailingDot | lib/utils/import/multiple/index.ts:43-49 | "a." goes to no bucket |
| MultipleImport.RoutingKeepsDuplicates | lib/utils/import/multiple/index.ts:43-49 | a bucket holds every occurrence of every file routed to it (no deduplication) and nothing else |
| MultipleImport.RoutingKeepsOrder | lib/utils/import/multiple/index.ts:34-50 | each bucket receives its files in input order: the files routed to a bucket are a subsequence of the input |
| MultipleImport.RoutingPartition | lib/utils/import/multiple/index.ts:34-50 | the input is exactly the union of the three buckets' additions and the dropped files |
| MultipleImport.Classify | lib/utils/import/multiple/index.ts:34-50 | the buckets after the classification loop: each old bucket with the files routed to it appended in order; see ClassifyTwice, ClassifyOne, ClassifyStep, and SortIntoBuckets, whose loop is proved equal to it |
| MultipleImport.ClassifyTwice | lib/utils/import/multiple/index.ts:34-50 | two classification passes leave the buckets that one pass over both lists leaves |
| MultipleImport.ClassifyOne | lib/utils/import/multiple/index.ts:43-49 | classifying one file appends it to the bucket its extension names, or to none |
| MultipleImport.ClassifyOneOf | lib/utils/import/multiple/index.ts:43-49 | after one file is classified, each bucket holds what it held before, plus the file if its extension names that bucket |
| MultipleImport.ClassifyStep | lib/utils/import/multiple/index.ts:34-50 | one more turn of the loop appends the next file to its bucket |
| MultipleImport.ImporterCount | lib/utils/import/multiple/index.ts:51-61 | `totalImporters`: one per non-empty bucket, so at most 3, and 0 exactly when all three buckets are empty; Dispatch states it equals the number of engines started |
| MultipleImport.Dispatch | lib/utils/import/multiple/index.ts:51-110 | one engine per non-empty bucket, each handed its whole bucket, no category twice, as many as `totalImporters` counts (at most three) |
| MultipleImport.LaterCallRedispatches | lib/utils/import/multiple/index.ts:63-110 | after two calls each engine receives the first call's routed files followed by the second's, and is started iff that list is non-empty |
| MultipleImport.EmptyCallRestartsOldBuckets | lib/utils/import/multiple/index.ts:29-63 | an empty array restarts the engines of the existing buckets; on a fresh importer it starts none |
| MultipleImport.Step | lib/utils/import/multiple/index.ts:65-75 | one status callback on one event: a `complete` adds 1 and its count and emits the aggregate when the completions equal `totalImporters`; any other event is re-emitted; see HandleStatus, which is proved to do one Step |
| MultipleImport.Feed | lib/utils/import/multiple/index.ts:65-75 | the callbacks over a sequence of events in arrival order; see FeedSnoc, FeedCounters, FeedForwards, FeedAggregates, AggregateCompleteOnce, and Deliver, which is proved to end in the state Feed gives |
| MultipleImport.FeedCounters | lib/utils/import/multiple/index.ts:65-75 | the counters grow by the number and by the sum of the `complete` events fed; `totalImporters` never changes |
| MultipleImport.FeedSnoc | lib/utils/import/multiple/index.ts:65-75 | feeding one more event is one more callback step after the earlier events: the fold agrees with invoking the callback event by event |
| MultipleImport.FeedForwards | lib/utils/import/multiple/index.ts:72-74 | every non-`complete` event is passed on unchanged and in arrival order |
| MultipleImport.FeedAggregates | lib/utils/import/multiple/index.ts:66-71 | from any counters, one aggregate `complete` is emitted exactly when the completions reach `totalImporters`, carrying the notes counted up to that point |
| MultipleImport.FeedAggregatesComplete | lib/utils/import/multiple/index.ts:66-71 | a leading `complete` event adds its count and counts towards the aggregate, so the aggregate property carries over from the later events to the whole sequence |
| MultipleImport.FeedAggregatesOther | lib/utils/import/multiple/index.ts:72-74 | a leading event other than `complete` changes no counter, so the aggregate property carries over from the later events |
| MultipleImport.AggregateOnComplete | lib/utils/import/multiple/index.ts:66-71 | the aggregate sum after one more completion is the earlier notes count plus that completion's count plus the later ones, up to `totalImporters` completions |
| MultipleImport.AggregateCompleteOnce | lib/utils/import/multiple/index.ts:51-75 | with n > 0 engines, at most one aggregate `complete`; it appears iff at least n completions arrived, and it carries the sum of the first n counts |
| MultipleImport.WithoutCompletionsAllIsForwarded | lib/utils/import/multiple/index.ts:65-75 | with no `complete` event, the output equals the input and the counters do not change (errors are not completions) |
| MultipleImport.TwoEnginesScenario | lib/utils/import/multiple/index.ts:63-110 | with two engines, progress, complete a, error, complete b is emitted as progress, error, complete a+b |
| MultipleImport.MultipleImporter.constructor | lib/utils/import/multiple/index.ts:16-23 | a new importer has three empty buckets |
| MultipleImport.MultipleImporter.ImportNotes | lib/utils/import/multiple/index.ts:25-111 | a falsy argument emits the "No files to import." error and changes nothing else; otherwise the buckets become the classification of the files appended to the old buckets, nothing is emitted, the engines of `Dispatch` are started, and the call's counters start at (number of engines, 0, 0) |
| MultipleImport.MultipleImporter.SortIntoBuckets | lib/utils/import/multiple/index.ts:34-50 | the loop leaves the old buckets followed by the files routed to each |
| MultipleImport.MultipleImporter.PushTo | lib/utils/import/multiple/index.ts:43-49 | one file is appended to the bucket named, or to none |
| MultipleImport.MultipleImporter.StartImporters | lib/utils/import/multiple/index.ts:51-110 | the buckets are unchanged; the engines started are `Dispatch` of the buckets, and `totalImporters` is their number |
| MultipleImport.ImportRun.constructor | lib/utils/import/multiple/index.ts:51-52 | a call's counters start at zero completions and zero notes |
| MultipleImport.ImportRun.HandleStatus | lib/utils/import/multiple/index.ts:65-75 | one callback invocation updates the counters and the importer's output as one `Step` of the fold |
| MultipleImport.ImportRun.Deliver | lib/utils/import/multiple/index.ts:65-75 | status callbacks invoked one after the other, from any of the call's engines in any interleaving, leave the counters and the importer's output as the fold `Feed` over the events, so the stream lemmas hold of the importer's state |
| Sorting.Sort | lib/tag-list/index.tsx:150-159 | `Array.prototype.sort` with a comparator, as insertion of each element in turn; see SortPermutes, SortKeepsCount, SortSorted, InsertShape |
| Sorting.SortPermutes | lib/tag-list/index.tsx:150-159 | sorting is a permutation |
| Sorting.InsertShape | lib/tag-list/index.tsx:150-159 | inserting places the element at one position and keeps the others in order |
| Sorting.SortKeepsCount | lib/tag-list/index.tsx:150-159 | sorting keeps how many elements satisfy any filter |
| Sorting.SortSorted | lib/tag-list/index.tsx:150-159 | with a consistent comparator the result is sorted |
| ImporterDropzone.Admit | lib/dialogs/import/dropzone/index.tsx:20-43 | `handleAccept`'s filter as a function: a JSON or ENEX file is kept only if no earlier file has its extension, every other file is kept; see FilterAccepted, whose loop is proved equal to it, AdmitKeepsFirst, AdmitKeepsOthers, AdmitIsSubsequence, AdmitLength, AdmitIdempotent |
| ImporterDropzone.FilterAccepted | lib/dialogs/import/dropzone/index.tsx:20-43 | the loop with its two counters computes `Admit`: the first JSON and first ENEX file are kept, later ones dropped, every other file kept |
| ImporterDropzone.FilterStep | lib/dialogs/import/dropzone/index.tsx:25-43 | one turn of the loop: the counters count the JSON and ENEX files seen, and a file is pushed unless its counter is already non-zero |
| ImporterDropzone.AdmitIsSubsequence | lib/dialogs/import/dropzone/index.tsx:24-43 | the filter only drops files and keeps the rest in order |
| ImporterDropzone.AdmitKeepsOthers | lib/dialogs/import/dropzone/index.tsx:40-42 | every file that is not a JSON or ENEX file is kept, duplicates included |
| ImporterDropzone.AdmitKeepsFirst | lib/dialogs/import/dropzone/index.tsx:30-39 | of the JSON files (and of the ENEX files) exactly the first dropped survives, or none when there was none |
| ImporterDropzone.AdmitLength | lib/dialogs/import/dropzone/index.tsx:20-43 | the result's length is the other files plus one per export kind present; a non-empty drop never becomes empty |
| ImporterDropzone.AdmitIdempotent | lib/dialogs/import/dropzone/index.tsx:20-43 | filtering an already filtered list changes nothing |
| ImporterDropzone.RejectMessage | lib/dialogs/import/dropzone/index.tsx:51-56 | "Choose a single file" iff single-file mode and more than one rejected file, otherwise "File type is incorrect" |
| ImporterDropzone.Dropzone.constructor | lib/dialogs/import/dropzone/index.tsx:17-18 | no accepted files and no error message at first |
| ImporterDropzone.Dropzone.Text | lib/dialogs/import/dropzone/index.tsx:84-86 | a set, non-empty error message is shown, otherwise the default prompt; never empty |
| ImporterDropzone.Dropzone.Placeholder | lib/dialogs/import/dropzone/index.tsx:88-93 | the warning icon iff an error is shown; "Drop files here" while dragging, else the text |
| ImporterDropzone.Dropzone.HandleAccept | lib/dialogs/import/dropzone/index.tsx:20-49 | stores the filtered files and passes the same list to `onAccept`; the error message is left as it was |
| ImporterDropzone.Dropzone.HandleReject | lib/dialogs/import/dropzone/index.tsx:51-59 | sets the rejection message, which then is the text shown, clears the accepted files and calls `onReset` |
| ImporterDropzone.Dropzone.OnDrop | lib/dialogs/import/dropzone/index.tsx:61-67 | exactly one callback per drop: `onReset` iff nothing was accepted, else `onAccept` with the non-empty filtered list |
| ImporterDropzone.Dropzone.ExpireError | lib/dialogs/import/dropzone/index.tsx:76-82 | when the timer fires the error is cleared and the default prompt returns |
| TagList.Compare | lib/tag-list/index.tsx:150-159 | alphabetical mode defers to the collation; by index, indexed tags compare by index and before unindexed ones, and an unindexed tag compares above anything |
| TagList.CompareAntisymmetry | lib/tag-list/index.tsx:153-158 | by index, swapping the arguments negates the result iff at least one tag has an index; two unindexed tags both compare as 1 |
| TagList.Visible | lib/tag-list/index.tsx:148-149 | the map's entries in map order without the email-address tags; see SortedTagsContents, ToggleShown |
| TagList.SortedTags | lib/tag-list/index.tsx:148-159 | `sortedTags`: the non-email entries in map order, sorted by `Compare`; see SortedTagsContents, AlphaSorted, IndexModeOrder |
| TagList.SortedTagsContents | lib/tag-list/index.tsx:148-159 | the list is a permutation of the non-email tags, and it holds a tag iff the map does and the tag is not an email address |
| TagList.AlphaSorted | lib/tag-list/index.tsx:150-152 | in alphabetical mode, with a collation that is a total preorder, the list is in collation order |
| TagList.IndexModeOrder | lib/tag-list/index.tsx:153-159 | by index: indexed tags come first, in ascending index order, then the unindexed tags in map order |
| TagList.SortByIndex | lib/tag-list/index.tsx:153-159 | the index-mode sort yields index order and keeps the unindexed entries' relative order |
| TagList.InsertIndexOrdered | lib/tag-list/index.tsx:153-159 | index order is kept by each insertion step |
| TagList.InsertUnindexedAppends | lib/tag-list/index.tsx:156-158 | an unindexed tag is placed after everything already sorted |
| TagList.EditToggle | lib/tag-list/index.tsx:165-173 | the toggle is rendered iff the list is non-empty; "Done" while editing, "Edit" otherwise |
| TagList.ToggleShown | lib/tag-list/index.tsx:148-173 | the toggle is rendered iff the map holds a tag that is not an email address |
| TagList.RowFor | lib/tag-list/index.tsx:68-119 | a row is selected iff the opened tag is its hash; reordering is allowed iff not alphabetical; trash button iff editing; drag handle iff editing and reordering; a click opens the tag iff not editing |
| TagList.Rows | lib/tag-list/index.tsx:106-120 | one row per sorted tag, in order |
| TagList.DistinctKeysCount | lib/tag-list/index.tsx:148 | the tag map holds each hash at most once |
| TagList.SelectedRows | lib/tag-list/index.tsx:107-113 | at most one row is selected, and one is iff the opened tag is a listed tag |
| NavigationBar.IsDialogOpen | lib/navigation-bar/index.tsx:157 | a dialog is open iff the dialog list is non-empty |
| NavigationBar.ToProps | lib/navigation-bar/index.tsx:152-162 | the props copy the UI flags and derive `isDialogOpen` from the dialog list |
| NavigationBar.IsSelected | lib/navigation-bar/index.tsx:61-77 | with an opened tag nothing is selected; otherwise trash iff `showTrash`, untagged iff `showUntaggedNotes`, all iff neither; any other row never |
| NavigationBar.SelectedRowCount | lib/navigation-bar/index.tsx:61-112 | with an opened tag no folder row is highlighted; otherwise exactly one, unless both flags are set, which highlights untagged and trash |
| NavigationBar.HandleClickOutside | lib/navigation-bar/index.tsx:42-52 | the navigation toggle is dispatched iff no dialog is open and the bar is shown |
| NavigationBar.ClickOutsideCloses | lib/navigation-bar/index.tsx:42-52 | from the UI state: a click outside toggles the bar iff the dialog list is empty and the bar is shown |

## Left out

- The conversion engines (`TextImporter`, `SimplenoteImporter`, `EvernoteImporter`) and the
  `addNote` sink are not part of this model. An engine is its category and the bucket it was
  handed. Its `status` events are inputs to `ImportRun.HandleStatus`, in any order and
  interleaving.
- The `options` passed to the engines, and the unused `lastFileName` variable, are not modelled.
- Engines receive the bucket array itself, not a copy, so a later call's pushes are visible to an
  engine still reading it. The model hands each engine the bucket's contents at start. Aliasing
  with the engines is not captured.
- `EventEmitter` mechanics (listener registration, synchronous dispatch) are not modelled.
  Emitting is appending to `emitted`.
- Concurrency: each callback invocation is one atomic `HandleStatus`. Overlapping calls of
  `importNotes` share the buckets and each has its own counters, as in the source.
- The status event's `type` and argument are modelled as three cases: `complete` with a count,
  `error` with a message, and any other type with an opaque payload.
- JavaScript numbers are modelled as unbounded integers: the note counts cannot overflow or
  lose precision.
- The drop zone: react-dropzone's own MIME/extension filtering (`acceptedTypes`), `locked`, the
  JSX, the accepted-files list and its "Import File(s)" header, and the CSS classes are not
  modelled. Which files arrive as accepted or rejected is an input.
- `onDrop` is memoised once, so it keeps the `multiple` of the first render. `multiple` is a
  constant of the `Dropzone` here, so a later change of the property is not captured.
- The 2500 ms timer is the `ExpireError` method. Its scheduling and cancellation are not modelled.
- `localeCompare` is a parameter, since its collation is locale-dependent. `AlphaSorted` assumes
  it is a total preorder.
- `isEmailTag` is a parameter, since its source is not part of this model.
- The engine's sort algorithm is not part of this model. `Sorting.Sort` is an insertion sort that
  places each element before the first one it compares below. For a consistent comparator this
  is the stable order the language requires. For the index-mode comparator, which is not
  antisymmetric between unindexed tags, the language leaves the order to the engine. The model
  keeps the unindexed tags in map order, as binary insertion does.
- The tag map is a sequence of entries in insertion order. `DistinctKeys` states that its keys
  are distinct.
- The tag list's drag-and-drop reordering (`reorderTag` and the `REORDER_TAG` action), the
  theme, and the tag-name input component are not modelled. Neither are the navigation bar's
  other buttons, `viewExternalUrl`, or the reducers behind the dispatched actions.
- The import dialog that hosts the drop zone and the importer (lib/dialogs/import/index.tsx) is
  not part of this model.
