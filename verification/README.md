# Verification model of the NGO.Tools mobile platform

This Dafny project models three parts of the repository and two helpers, and proves what they
promise.

**Module tooling.** `Graph`, `CycleSearch`, `Resolver`, `Catalog`, `Snapshot`, the `Manifest*`
modules and `AddCommand` model the module catalog, its JSON snapshot, the dependency closure of a
module and the line editor of the manifest. They end in `AddCommand.PublishAndAdd`: when the catalog
loads without errors and a manifest is valid, adding any available module succeeds and leaves the
manifest valid. `Text` and `Sorting` hold the parts of the Dart library this needs: string order,
sorting, splitting and joining lines.

**Chat lists.** `SdkVector` is the SDK's vector with its diffs, `FacadeList` the facade's diffs, their
translation and the app's `applyDiffs`. `Sse`, `Utf8`, `TimelineCodec`, `RoomCodec`, `ThreadCodec`,
`DiffCodec` and `SseStreams` are the native side of the byte codec, `AppCodec` the decoders of the
app; encoders and decoders are written separately, as in the generated code. `Pipeline` joins them for timelines and thread lists, `RoomListTask` models the
room list loop, and `RoomListRegistry` and `RegistryRuns` the watches of a client with all their
interleavings.

**Session and sync.** `ErrorClassification` decides what a failure means, `Lifecycle` is the session
cell with everything that changes it, `Supervisor` and `SupervisorRuns` the task that restarts or stops the sync service,
interleaved with arbitrary other steps, `StoredSessions` the persisted session across restarts,
`ChatClient` the calls that change both, and `ClientRuns` runs of these calls.

**Helpers.** `DartLiteral` is the escaping of Dart string literals, `Polling` the wait for a live
preview decision.

Code that works by changing things step by step is modelled by classes and loops that are proved
against functions; the theorems are about those functions, and driver methods state them about whole
runs of the classes.

What the model takes as given: Dart strings are sequences of code units ordered by code unit (a
Dafny `char` stands for one); a JSON value survives printing and parsing; a watch channel is a value
with a version; command channels are first in, first out; writing one value to the store is atomic;
`VectorDiff::apply` is the usual sequence operation and panics on an index outside of the vector;
whether it panics or does nothing on a truncation to more than the length is left open
(`SdkVector.TRUNCATES_LENIENTLY`), and both are covered.

Three findings about the code are stated exactly rather than assumed away:

- The app's `applyDiffs` throws when it pops from an empty list, where the SDK's vector does nothing
  (likewise for truncations, if the SDK lets them pass). `FacadeList.TranslationIsExactWhen` shows for
  every list that nothing else goes wrong while indices fit in 32 bits, and
  `FacadeList.SaturationShows` that larger ones do.
- A persisted token refresh writes the session in memory without looking at the stored one.
  `StoredSessions.StoreHoldsLatestWhenInSync` gives the exact condition under which the store always
  holds the latest sign-in, and `StoredSessions.LateRefreshOverwrites` two runs that break it.
- A locked session is not final: the handler of unknown tokens overwrites it.
  `Lifecycle.LockedStaysExactlyWhen` gives the exact condition under which a lock stays, and
  `Lifecycle.LockIsNotSticky` a run that breaks it.

## Model

| member | source | states |
|---|---|---|
| Text.BeforeIsLexicographic | tool/modules.dart:394 | strings are ordered by their first differing code unit, or by their end |
| Text.AscendingIsUnique | tool/modules.dart:394 | order and elements determine a sorted list, so modelling `toList()..sort()` by one function loses nothing |
| Text.LinesOfJoin | tool/modules.dart:333-341 | splitting the joined lines gives the lines back when none contains a newline |
| Text.JoinOfLines | tool/modules.dart:333-341 | joining the lines of any text gives the text back |
| Sorting.SortedBy | lib/src/mobile_module_catalog.dart:195 | sorting keeps all elements and orders them by key |
| Sorting.NeighboursDecideDistinct | lib/src/mobile_module_catalog.dart:201-207 | in a sorted list, comparing neighbours finds every repeated key |
| Sorting.SortIsCanonical | lib/src/mobile_module_catalog.dart:195 | with distinct keys the sorted list does not depend on the original order |
| Graph.NoCycleInOrder | lib/src/mobile_module_catalog.dart:472-511 | a module of a duplicate-free list with dependencies first lies on no cycle |
| Graph.ClosedSetContainsReachable | tool/modules.dart:172-204 | a set closed under dependencies contains everything reachable from its members |
| CycleSearch.Search.Visit | lib/src/mobile_module_catalog.dart:482-504 | the trail lists exactly the modules being visited, each once; visited modules and errors only grow; without errors the module ends up visited after all its known dependencies; every error reports a closed walk |
| CycleSearch.DependencyCycleErrors | lib/src/mobile_module_catalog.dart:472-511 | no errors exactly when the graph over the known ids is acyclic; every message names the modules of a real closed walk; messages are sorted |
| CycleSearch.JoinWithSplits | lib/src/mobile_module_catalog.dart:485-489 | a message lists all modules of the trail in order, with an arrow between each two |
| Resolver.Visitor.Visit | tool/modules.dart:177-200 | on success the result is extended by modules after their dependencies and ends with a newly visited one; on failure the named module is reachable and indeed unknown or on a cycle |
| Resolver.DependenciesFor | tool/modules.dart:172-204 | succeeds exactly when everything reachable is known and free of cycles; the result is duplicate-free, exactly the reflexive-transitive closure, dependencies first, and ends with the requested module; errors are justified |
| Catalog.ById | lib/src/mobile_module_catalog.dart:106-110 | the index holds exactly the ids of the modules, each with a module of that id |
| Catalog.RequirementErrors | lib/src/mobile_module_catalog.dart:216-232 | silent exactly when every required module is known, and available if the module is; otherwise reports exactly the modules and dependencies that are not met, by name |
| Catalog.DuplicateErrors | lib/src/mobile_module_catalog.dart:201-211 | silent exactly when all ids are distinct; otherwise names exactly the repeated ids |
| Catalog.Load | lib/src/mobile_module_catalog.dart:195-241 | only adds errors, and adds none exactly when there is a module, ids are distinct, all requirements are met and dependencies are acyclic; every repeated id and unmet requirement is named, every message is justified, and some cycle is reported if there is one |
| Catalog.AvailabilityPropagates | lib/src/mobile_module_catalog.dart:216-234 | in an accepted catalog everything an available module reaches is known and available, so its closure exists |
| Catalog.SelectionErrors | lib/src/mobile_module_catalog.dart:314-347 | silent exactly when the selected module is known and available and its modules, scopes and permissions are declared; otherwise names exactly what is wrong |
| Catalog.ValidateManifest | lib/src/mobile_module_catalog.dart:300-350 | silent exactly when the declarations exist and every selected module is met; otherwise reports exactly what is wrong with each selected module |
| Catalog.MergeKeepsManifestValid | lib/src/mobile_module_catalog.dart:300-350 | adding a closure of available modules with all it needs keeps a manifest valid and selects the module |
| Snapshot.EntrySurvives | lib/src/mobile_module_catalog.dart:87-101 | reading a rendered descriptor gives back its id, texts, status and all its lists, and the delivery as text |
| Snapshot.SnapshotSurvives | tool/modules.dart:141-162 | a sorted catalog with distinct ids is read back entry by entry in the same order; the checks of the reader accept it |
| Snapshot.AcceptedSnapshots | tool/modules.dart:141-162 | the reader accepts exactly snapshots of version 1 whose entries are complete and have distinct ids, and returns all of them sorted |
| Snapshot.SnapshotIsStable | lib/src/mobile_module_catalog.dart:353-361 | the snapshot does not depend on the order in which descriptors were found |
| Snapshot.IndexSurvives | tool/modules.dart:130-139 | looking up an id in the snapshot gives the entry of the catalog's descriptor |
| Snapshot.DependenciesSurvive | tool/modules.dart:130-139 | the command sees the catalog's dependency graph |
| ManifestEditor.FieldIndex | tool/modules.dart:358-371 | the scan finds the first field line before the section ends |
| ManifestEditor.Collect | tool/modules.dart:377-391 | the scan finds the end of the block and its items, or a line that is no item |
| ManifestEditor.MergeList | tool/modules.dart:344-400 | the loops compute the merge function: its error, or the lines with the block rewritten |
| ManifestFrame.FoundWhereWritten | tool/modules.dart:350-383 | a list is found at a place exactly when its section, its key before the section ends, and its indented block are written there |
| ManifestFrame.ItemsAreWritten | tool/modules.dart:377-391 | a block reads as exactly the items written in it, and not at all if it holds any other line |
| ManifestFrame.ReplacementReads | tool/modules.dart:395-397 | a written list is a scalar list that reads back as exactly its values |
| ManifestFrame.ReplaceMovesOtherPlace | tool/modules.dart:399 | rewriting one block moves any other list's section and block by the change in length, and nothing else |
| ManifestFrame.ReplacesCommute | tool/modules.dart:334-336 | edits of two lists can be made in either order |
| ManifestAdd.MergeKeepsOther | tool/modules.dart:334-336 | a merge neither breaks nor repairs another list and leaves its items as they were |
| ManifestAdd.MergeIsStable | tool/modules.dart:393-399 | merging values that are already written changes nothing, also before a trailing blank line |
| ManifestAdd.Add | tool/modules.dart:328-342 | the three merges and the restored final newline compute the addition on text |
| ManifestTheorems.AddWritesUnions | tool/modules.dart:328-342 | an addition succeeds exactly when all three lists are present and scalar, and each then reads as the sorted union of old and new values |
| ManifestTheorems.AddKeepsOutside | tool/modules.dart:399 | every line outside of the three blocks keeps its content and order |
| ManifestTheorems.AddTextKeepsOutside | tool/modules.dart:338-341 | the same for the text: the restored final newline adds no line outside of the blocks and loses none |
| ManifestTheorems.FinalNewlineIsKept | tool/modules.dart:338-341 | the file ends with a newline after the addition exactly when it did before |
| ManifestTheorems.AddTextIsIdempotent | tool/modules.dart:60-67 | adding twice gives the same text as adding once |
| ManifestTheorems.AddTextReads | tool/modules.dart:328-342 | the written text, split again, reads as the three sorted unions |
| AddCommand.Expand | tool/modules.dart:56-62 | collects exactly the ids of the closure, the scopes its modules name and the device permissions they name |
| AddCommand.Add | tool/modules.dart:41-72 | succeeds exactly when the snapshot loads, the module is known, available and resolvable and the manifest is readable; each list then holds exactly its old entries and what the modules reachable from the requested one name for it; otherwise the first failing step is reported |
| AddCommand.AddingIsSafe | tool/modules.dart:41-72 | in an accepted catalog, adding the closure of an available module to a valid manifest succeeds, keeps it valid, selects the module and keeps every line outside of the three lists |
| AddCommand.AddingAgainChangesNothing | tool/modules.dart:64-67 | adding a module a second time leaves the manifest as it is |
| AddCommand.AddedFromCatalog | tool/modules.dart:28-55 | on the published snapshot the command finds the module, its state and its closure as the catalog has them |
| AddCommand.PublishAndAdd | tool/modules.dart:41-72 | end to end: a catalog that loads without errors and a valid manifest give a successful addition that validates without errors, adds exactly what the modules reachable from the requested one need to the fields the validation reads, and keeps all other lines |
| FacadeList.ApplyDiffs | packages/ngotools_chat/lib/src/diff_list.dart:69-102 | the loop computes the fold of all diffs, or throws where one of them does |
| FacadeList.EndsArePositions | packages/ngotools_chat/lib/src/diff_list.dart:69-102 | changes at the ends, clearing and truncating to nothing are the insertions, removals and resets at those positions |
| FacadeList.InsertionLaws | packages/ngotools_chat/lib/src/diff_list.dart:86-93 | an inserted item is at its index, and removing it gives the list back |
| FacadeList.SetLaw | packages/ngotools_chat/lib/src/diff_list.dart:88-91 | setting is removing and inserting |
| FacadeList.AppendLaws | packages/ngotools_chat/lib/src/diff_list.dart:69-102 | appends add behind and join; a truncation keeps the prefix of its length or throws |
| FacadeList.TranslationCommutes | packages/ngotools_chat/rust/src/api/timeline.rs:662-696 | for all eleven kinds, applying a translated diff to the mapped list equals mapping the list after the diff |
| FacadeList.TranslationIsExactWhen | packages/ngotools_chat/lib/src/diff_list.dart:82-96 | for every mapping, diff with 32-bit indices and vector, translation is exact if and only if the diff does not remove items that are not there; then the SDK's vector stays and the app throws |
| FacadeList.SaturationShows | packages/ngotools_chat/rust/src/api/timeline.rs:893-895 | every diff whose index does not fit in 32 bits is sent with the largest one and goes wrong on some list |
| FacadeList.ShortListsAreTranslatable | packages/ngotools_chat/rust/src/api/rooms.rs:441-443 | streams over lists shorter than 2^32 that remove only items that are there can always be followed |
| FacadeList.StreamCommutes | packages/ngotools_chat/rust/src/api/threads.rs:162-195 | the same for whole streams of diffs |
| FacadeList.ApplyIsNatural | packages/ngotools_chat/lib/src/diff_list.dart:69-102 | whether and where a diff applies does not depend on the items |
| Sse.UnsignedRoundTrip | packages/ngotools_chat/rust/src/frb_generated.rs:7741-7753 | an unsigned integer of any width survives in either byte order |
| Sse.I32Codec | packages/ngotools_chat/rust/src/frb_generated.rs:6863-6868 | two's-complement 32-bit integers survive (decoder at lines 3999-4004) |
| Sse.I64Codec | packages/ngotools_chat/rust/src/frb_generated.rs:6870-6875 | two's-complement 64-bit integers survive (decoder at lines 4006-4011) |
| Sse.AsI32 | packages/ngotools_chat/rust/src/frb_generated.rs:6925 | the length cast keeps a length exactly below 2^31 |
| Sse.VecCodec | packages/ngotools_chat/rust/src/frb_generated.rs:6922-6930 | vectors survive exactly when shorter than 2^31 with surviving items (decoder at lines 4084-4094); longer ones never decode to themselves |
| Sse.OptionCodec | packages/ngotools_chat/rust/src/frb_generated.rs:7186-7194 | optional values survive exactly when their value does (decoder at lines 4364-4373) |
| Utf8.StringCodec | packages/ngotools_chat/rust/src/frb_generated.rs:6638-6643 | strings survive exactly below 2^31 bytes (decoder at lines 3715-3721) |
| TimelineCodec.SenderCodec | packages/ngotools_chat/rust/src/frb_generated.rs:7510-7517 | senders survive exactly when well-sized, and following bytes pass through (decoder at lines 4745-4757) |
| TimelineCodec.MessagePreviewCodec | packages/ngotools_chat/rust/src/frb_generated.rs:7113-7156 | likewise message previews, over all eleven tags |
| TimelineCodec.DecryptionFailureCodec | packages/ngotools_chat/rust/src/frb_generated.rs:6713-6731 | likewise decryption failures |
| TimelineCodec.MembershipKindCodec | packages/ngotools_chat/rust/src/frb_generated.rs:7091-7111 | likewise membership changes |
| TimelineCodec.EventKeyCodec | packages/ngotools_chat/rust/src/frb_generated.rs:6844-6861 | likewise event keys |
| TimelineCodec.UploadProgressCodec | packages/ngotools_chat/rust/src/frb_generated.rs:7767-7773 | likewise upload progress with its 64-bit counters |
| TimelineCodec.SendStateCodec | packages/ngotools_chat/rust/src/frb_generated.rs:7488-7508 | likewise send states |
| TimelineCodec.EventContentCodec | packages/ngotools_chat/rust/src/frb_generated.rs:6741-6822 | likewise event contents, over all eleven variants (decoder at lines 3841-3935) |
| TimelineCodec.ReplyPreviewCodec | packages/ngotools_chat/rust/src/frb_generated.rs:7363-7370 | likewise reply previews |
| TimelineCodec.ReactionCodec | packages/ngotools_chat/rust/src/frb_generated.rs:7336-7343 | likewise reactions |
| TimelineCodec.ThreadSummaryCodec | packages/ngotools_chat/rust/src/frb_generated.rs:7638-7645 | likewise thread summaries |
| TimelineCodec.EventItemCodec | packages/ngotools_chat/rust/src/frb_generated.rs:6824-6842 | likewise events with their fourteen fields (decoder at lines 3937-3973) |
| TimelineCodec.TimelineItemKindCodec | packages/ngotools_chat/rust/src/frb_generated.rs:7709-7732 | likewise kinds of timeline items |
| TimelineCodec.TimelineItemCodec | packages/ngotools_chat/rust/src/frb_generated.rs:7701-7707 | likewise timeline items |
| RoomCodec.RoomKindCodec | packages/ngotools_chat/rust/src/frb_generated.rs:7391-7405 | likewise room kinds |
| RoomCodec.MembershipCodec | packages/ngotools_chat/rust/src/frb_generated.rs:7075-7089 | likewise memberships |
| RoomCodec.NotificationModeCodec | packages/ngotools_chat/rust/src/frb_generated.rs:7169-7184 | likewise notification modes |
| RoomCodec.LatestEventCodec | packages/ngotools_chat/rust/src/frb_generated.rs:6900-6910 | likewise latest events |
| RoomCodec.RoomSummaryCodec | packages/ngotools_chat/rust/src/frb_generated.rs:7469-7486 | likewise room summaries (decoder at lines 4688-4715) |
| ThreadCodec.ThreadEventCodec | packages/ngotools_chat/rust/src/frb_generated.rs:7564-7573 | likewise thread events |
| ThreadCodec.ThreadInfoCodec | packages/ngotools_chat/rust/src/frb_generated.rs:7575-7582 | likewise thread infos |
| DiffCodec.DiffRoundTrip | packages/ngotools_chat/rust/src/frb_generated.rs:7647-7699 | over any item codec, the eleven diff variants survive exactly when well-sized (decoder at lines 4911-4972) |
| DiffCodec.TimelineDiffCodec | packages/ngotools_chat/rust/src/frb_generated.rs:7647-7699 | timeline diffs survive exactly when every nested vector and string is shorter than 2^31 |
| DiffCodec.RoomListDiffCodec | packages/ngotools_chat/rust/src/frb_generated.rs:7407-7459 | likewise room list diffs |
| DiffCodec.ThreadListDiffCodec | packages/ngotools_chat/rust/src/frb_generated.rs:7584-7636 | likewise thread list diffs |
| DiffCodec.TimelineBatchCodec | packages/ngotools_chat/rust/src/frb_generated.rs:6992-7000 | likewise whole batches, whose encoding is never empty |
| DiffCodec.PrefixFree | packages/ngotools_chat/rust/src/frb_generated.rs:6992-7000 | no encoding of a well-sized value continues into another one |
| DiffCodec.TimelineMessagesParseUniquely | packages/ngotools_chat/rust/src/frb_generated.rs:6992-7000 | concatenated timeline messages can be cut in only one way |
| AppCodec.NumbersAgree | packages/ngotools_chat/lib/src/rust/frb_generated.dart:5153-5163 | the app reads flags and integers of both signs from their bytes as the native side does, in either byte order |
| AppCodec.StringAgrees | packages/ngotools_chat/lib/src/rust/frb_generated.dart:3949-3953 | the app reads every string that the native side reads |
| AppCodec.EventContentAgrees | packages/ngotools_chat/lib/src/rust/frb_generated.dart:4195-4264 | likewise all eleven event contents |
| AppCodec.EventItemAgrees | packages/ngotools_chat/lib/src/rust/frb_generated.dart:4267-4299 | likewise events with their fourteen fields |
| AppCodec.RoomSummaryAgrees | packages/ngotools_chat/lib/src/rust/frb_generated.dart:4906-4932 | likewise room summaries |
| AppCodec.ThreadInfoAgrees | packages/ngotools_chat/lib/src/rust/frb_generated.dart:5004-5014 | likewise thread infos |
| AppCodec.DiffAgrees | packages/ngotools_chat/lib/src/rust/frb_generated.dart:5075-5115 | likewise all eleven kinds of diff, over any items read alike |
| AppCodec.AppReadsTimelineBatches | packages/ngotools_chat/lib/src/rust/frb_generated.dart:4483-4494 | the app's own decoder reads every well-sized timeline batch that the native encoder writes, and stops behind it |
| AppCodec.AppReadsRoomListBatches | packages/ngotools_chat/lib/src/rust/frb_generated.dart:4419-4430 | likewise room list batches |
| AppCodec.AppReadsThreadListBatches | packages/ngotools_chat/lib/src/rust/frb_generated.dart:4469-4480 | likewise thread list batches |
| SseStreams.SseSerializer.WriteVec | packages/ngotools_chat/rust/src/frb_generated.rs:6922-6930 | the loop appends exactly the encoding of the vector to the cursor |
| SseStreams.SseDeserializer.ReadVec | packages/ngotools_chat/rust/src/frb_generated.rs:4084-4094 | the loop reads what the decoding function says and leaves the cursor behind the last item |
| SseStreams.SseSerializer.WriteEventItem | packages/ngotools_chat/rust/src/frb_generated.rs:6824-6842 | writing the fourteen fields one after the other appends exactly the event's encoding |
| SseStreams.SseDeserializer.ReadEventItem | packages/ngotools_chat/rust/src/frb_generated.rs:3937-3973 | reading them one after the other gives the event the decoding function says, or panics where it does |
| SseStreams.SseSerializer.WriteTimelineDiff | packages/ngotools_chat/rust/src/frb_generated.rs:7647-7699 | writing the tag and then the fields appends exactly the diff's encoding, for all eleven kinds |
| SseStreams.SseSerializer.WriteTimelineBatch | packages/ngotools_chat/rust/src/frb_generated.rs:6992-7000 | the loop over diffs, whose items and events are written by their own methods, appends exactly the batch's encoding |
| SseStreams.SseDeserializer.ReadTimelineDiff | packages/ngotools_chat/rust/src/frb_generated.rs:4911-4972 | reading the tag and then its fields gives the diff the decoding function says, or panics where it does |
| SseStreams.SseDeserializer.ReadTimelineBatch | packages/ngotools_chat/rust/src/frb_generated.rs:4170-4182 | the loop reads the diffs the decoding function says and leaves the cursor behind the last one |
| SseStreams.SendAndReceive | packages/ngotools_chat/rust/src/frb_generated.rs:6992-7000 | a well-sized batch written by the one cursor, down to its events, is read by the other, with no bytes left |
| Pipeline.Watch | packages/ngotools_chat/rust/src/api/timeline.rs:358-387 | sends the reset and then the mapped batches in order, up to the first the sink refuses |
| Pipeline.TimelineArrives | packages/ngotools_chat/rust/src/api/timeline.rs:358-387 | for any initial vector and any stream that can be followed, mapping, the native encoder, the app's decoder and applying give exactly the item-wise image of the SDK's final vector |
| Pipeline.ThreadListArrives | packages/ngotools_chat/rust/src/api/threads.rs:82-105 | the same for thread lists |
| RoomListTask.Task.Mirror | packages/ngotools_chat/rust/src/api/rooms.rs:161-165 | the loop applies each diff to the mirror and maps it |
| RoomListTask.WatchRoomList | packages/ngotools_chat/rust/src/api/rooms.rs:154-214 | the loop with the app behind it: the sink stays open exactly while the app takes every batch; then the app shows the rooms of the SDK's vector in the same order, and after a settings change as they are live then; the filter in use is the last one commanded, and filters set and pages loaded are those the events ask for |
| RoomListTask.StepKeepsIds | packages/ngotools_chat/rust/src/api/rooms.rs:154-214 | no turn separates the app's rooms from the visible ones unless it closes the sink |
| RoomListTask.MirrorIsSdkVector | packages/ngotools_chat/rust/src/api/rooms.rs:161-165 | in every run the visible rooms are what all diffs of the SDK's stream give, whatever happens in between |
| RoomListTask.AppShowsVisibleRooms | packages/ngotools_chat/rust/src/api/rooms.rs:154-214 | in every run mixing diffs, filters, refilters and settings resets, the app shows the visible rooms in the same order |
| RoomListTask.ReceivedRoomsAreVisible | packages/ngotools_chat/rust/src/api/rooms.rs:154-214 | and so does the list the app decodes from the bytes sent |
| RoomListTask.RunCounts | packages/ngotools_chat/rust/src/api/rooms.rs:172-212 | in every run each filter command, refilter, lagging update and update with left rooms sets a filter, each request loads a page, each stream batch and settings change is sent while the app takes it, and the task ends exactly on the events that say so |
| RoomListTask.FilterIsTheLastOneSent | packages/ngotools_chat/rust/src/api/rooms.rs:187-212 | in every run the active filter, which the controller has too, is the last one commanded; refilters, left rooms and lagging updates never change it |
| RoomListRegistry.RoomLists.StopRoomLists | packages/ngotools_chat/rust/src/api/rooms.rs:236-240 | empties the registry and aborts exactly the registered tasks |
| RoomListRegistry.RoomLists.RefilterRoomLists | packages/ngotools_chat/rust/src/api/rooms.rs:258-262 | sends one refilter to each registered task that still listens |
| RoomListRegistry.RoomLists.SendRoomCommand | packages/ngotools_chat/rust/src/api/rooms.rs:264-277 | the command reaches exactly the watch's own task; it fails for unknown ids and ended tasks |
| RoomListRegistry.RunningTasksAreRegistered | packages/ngotools_chat/rust/src/api/rooms.rs:217-240 | in every interleaving the tasks not aborted are exactly those registered, about to be registered, or replaced and about to be aborted |
| RoomListRegistry.DrainedTaskHasItsFilter | packages/ngotools_chat/rust/src/api/rooms.rs:242-277 | in every interleaving a task that has drained its channel has the filter last sent to its own watch since it started, or all rooms |
| RegistryRuns.RegistryByPosition | packages/ngotools_chat/rust/src/api/rooms.rs:217-240 | in every interleaving a watch is registered exactly when some registration of a task of that watch was neither stopped nor replaced since, and then with that task |
| RegistryRuns.AbortedByPosition | packages/ngotools_chat/rust/src/api/rooms.rs:217-240 | a task is aborted exactly when its watch was stopped, alone or with all, while registered with it, or when it was replaced |
| RegistryRuns.EndedByPosition | packages/ngotools_chat/rust/src/api/rooms.rs:115-214 | a task counts as ended exactly when it returned by itself |
| RegistryRuns.QueueIsWhatWasSent | packages/ngotools_chat/rust/src/api/rooms.rs:258-277 | a task's channel holds exactly what was sent to its watch while it listened, in order, less what it took; its filter is the one of what it took |
| RegistryRuns.RunWatches | packages/ngotools_chat/rust/src/api/rooms.rs:217-277 | taking any interleaving step by step: registered, aborted and queued is what the positions of the steps say; with no call under way the tasks not aborted are exactly the registered ones, and each drained task has its own last filter |
| ErrorClassification.HttpByLayers | packages/ngotools_chat/rust/src/api/error.rs:99-125 | the mutually recursive classification equals a flat rule over any depth of wrapping: outermost known kind, else the core, else a failed refresh ends the session; what each kind answers is stated by ChainMeans |
| ErrorClassification.NetworkMeansNoConnection | packages/ngotools_chat/rust/src/api/error.rs:99-144 | under any depth of wrapping, exactly connect and timeout errors and unsent refresh requests without a known error kind classify as a network failure |
| ErrorClassification.RejectedTokensEndSessions | packages/ngotools_chat/rust/src/api/error.rs:127-144 | of the token endpoint's codes (section 5.2 of RFC 6749) exactly invalid_grant, invalid_client and unauthorized_client end a session, behind any layers of context and under any wrapping without a known error kind |
| ErrorClassification.SessionEndsExactlyWhen | packages/ngotools_chat/rust/src/api/error.rs:74-144 | the exact condition under which an HTTP error ends the session, and under which the account counts as locked |
| ErrorClassification.FirstDecides | packages/ngotools_chat/rust/src/api/error.rs:191-221 | any number of undecided layers in front of a deciding error changes nothing |
| ErrorClassification.ChainIsNetworkWhen | packages/ngotools_chat/rust/src/api/error.rs:184-221 | a chain is a network failure exactly when its first deciding error is a connectivity failure, and then it never ends a session |
| ErrorClassification.ChainEndsSessionWhen | packages/ngotools_chat/rust/src/api/error.rs:184-221 | a chain ends the session exactly when its first deciding error names a revoked token or a locked account, is a rejected or missing refresh token, a refresh without OAuth that fails for no recognized reason, or says so itself |
| ErrorClassification.ChainMeans | packages/ngotools_chat/rust/src/api/error.rs:72-221 | for each of the ten answers, the exact failures that give it: its kind, its SDK cause with its text, its token or transport error, as the first error of the chain that means anything; otherwise an internal error with the chain's text |
| ChatClient.Client.RestoreSession | packages/ngotools_chat/rust/src/api/client.rs:136-149 | succeeds exactly when reading does not fail and the SDK does not refuse a stored session; finds the session that is stored, the latest sign-in with its latest tokens when refreshes were persisted in sync, and then activates; a failure is reported and keeps the store |
| ChatClient.Client.FinishLogin | packages/ngotools_chat/rust/src/api/client.rs:187-207 | succeeds exactly when neither the login nor storing fails; the history then grows by the login and its persisting, and the authenticated session is the one stored, the last sign-in and active |
| ChatClient.Client.SignInWithToken | packages/ngotools_chat/rust/src/api/client.rs:212-233 | succeeds exactly when storing, reading and restoring do not fail; the issued session is then stored, the one in use and active |
| ChatClient.Client.UpdateAccessToken | packages/ngotools_chat/rust/src/api/client.rs:237-254 | succeeds exactly when a session is stored and in use and no stage fails, and then stored and used token are the new one; keeps user, device and the issued flag also when it fails half way |
| ChatClient.Client.Logout | packages/ngotools_chat/rust/src/api/client.rs:272-287 | succeeds exactly when stopping, reading and forgetting do not fail and the session is issued or its revocation does not fail; then nothing is stored and the session is signed out, otherwise the store is kept |
| ChatClient.FirstFailingStageIsReported | packages/ngotools_chat/rust/src/api/client.rs:136-287 | each call reports exactly the error of the first of its stages that fails |
| ChatClient.Client.Resume | packages/ngotools_chat/rust/src/api/lifecycle.rs:165-173 | goes on exactly when some sign-in of this client has not been ended since, and otherwise fails with the error of a locked or an ended session |
| ClientRuns.SignInIsKept | packages/ngotools_chat/rust/src/api/client.rs:187-287 | a successful sign-in lasts: through restarts, refreshes, token updates, rejected tokens and failures of any kind its user and device stay stored, until a call replaces or forgets them |
| ClientRuns.LogoutForgetsExactlyWhen | packages/ngotools_chat/rust/src/api/client.rs:272-287 | after the last logout nothing is stored exactly when no refresh is persisted late |
| ClientRuns.ActiveExactlyWhen | packages/ngotools_chat/rust/src/api/client.rs:136-287 | over every run of calls the session is active exactly when some successful sign-in, token update or restore is ended by no later call, rejected token or restart |
| ClientRuns.RunAndRestart | packages/ngotools_chat/rust/src/api/client.rs:136-287 | runs all calls with their failures and restarts, then restarts and restores: each call returns the error of its first failing stage, the session is active exactly when some activating call has not been ended and is then found again, a lasting sign-in is what is found, and nothing after a logout unless a refresh is persisted late |
| Lifecycle.StepChanges | packages/ngotools_chat/rust/src/api/lifecycle.rs:63-91 | the version counts exactly the changes; only restores and sign-ins activate; a report only moves from active to expired or locked |
| Lifecycle.ActiveExactlyWhenSignedIn | packages/ngotools_chat/rust/src/api/client.rs:136-287 | over every run, the session is active exactly when some sign-in or restore has not been ended since |
| Lifecycle.VersionCountsChanges | packages/ngotools_chat/rust/src/api/lifecycle.rs:63-69 | over every run the version grows by the number of changes |
| Lifecycle.ConnectivityKeepsActive | packages/ngotools_chat/rust/src/api/lifecycle.rs:78-105 | any number of connectivity failures, however wrapped, leaves an active session as it is |
| Lifecycle.StateByPosition | packages/ngotools_chat/rust/src/api/lifecycle.rs:63-91 | over every run, a session is locked exactly when a locked account was reported while it was active and nothing unlocked it since, and expired exactly when an unknown token, or a rejected one while it was active, came last |
| Lifecycle.LockedStaysExactlyWhen | packages/ngotools_chat/rust/src/api/lifecycle.rs:78-91 | a locked session stays locked exactly as long as nobody signs in or out, none is restored and no unknown token is reported |
| Lifecycle.LockIsNotSticky | packages/ngotools_chat/rust/src/api/client.rs:433-436 | the input that breaks it: a run from a new client in which a rejected token turns a lock into an expired session |
| Supervisor.GoneSessionIsStopped | packages/ngotools_chat/rust/src/api/lifecycle.rs:183-242 | in every interleaving, once the task has processed the latest change since it subscribed and the session is expired or locked, its last command was to stop |
| Supervisor.CommandsAreJustified | packages/ngotools_chat/rust/src/api/lifecycle.rs:183-242 | in every interleaving each start follows a look that saw not paused and then one that saw active, each stop a look at a gone session, each delay is the one for the errors since the service last ran, and the count is their number modulo 2^32 |
| SupervisorRuns.NothingIsLeftOut | packages/ngotools_chat/rust/src/api/lifecycle.rs:183-242 | in every interleaving each error that does not end the session is followed by its delay, each delay by the looks, looks that found the client not paused and the session active by a start, each other look at a gone session by a stop; a waiting task owes none of these, and a task that does not wait can go on |
| SupervisorRuns.LogIsTruthful | packages/ngotools_chat/rust/src/api/lifecycle.rs:183-242 | session, pause and everything the task saw and did are what the steps make them: its looks find the values of that moment, and each error it observes is reported |
| SupervisorRuns.NothingAfterTheEnd | packages/ngotools_chat/rust/src/api/lifecycle.rs:183-216 | once the states have ended or the task was aborted, it does nothing any more |
| SupervisorRuns.Supervise | packages/ngotools_chat/rust/src/api/lifecycle.rs:183-242 | the task ends where exactly the events that can happen when they are due lead: its log is truthful, nothing called for is left out, every start, stop and delay is justified by what was seen before it, a gone session is stopped, and count and waiting time are those of the errors since the service last ran |
| Supervisor.DelayValue | packages/ngotools_chat/rust/src/api/lifecycle.rs:255-257 | delays are 1, 2, 4, 8 and 16 seconds, then 30 for any number of failures |
| Supervisor.DelaysAddUp | packages/ngotools_chat/rust/src/api/lifecycle.rs:189-202 | in every interleaving, n errors since the service last ran that did not end the session have been slept on for 2^n - 1 seconds in total up to five, and 31 + 30(n - 5) beyond |
| StoredSessions.SessionStore.RestoreStoredSession | packages/ngotools_chat/rust/src/session.rs:156-183 | after any run in sync, finds a session exactly when some sign-in was not forgotten, and then returns the user and device of the last one and takes over the tokens stored last |
| StoredSessions.TokenUpdatesKeepIdentity | packages/ngotools_chat/rust/src/session.rs:238-249 | over any number of steps in sync without a sign-in or a forget, the store keeps user, device and issued flag, whatever tokens are written |
| StoredSessions.StoreHoldsLatestWhenInSync | packages/ngotools_chat/rust/src/session.rs:192-280 | at every point of a run with restarts anywhere, a session is stored exactly when the last sign-in came after the last forget, with that sign-in's user and device and the tokens written last, if and only if each persisted refresh belongs to the stored session |
| StoredSessions.StepHoldsLatest | packages/ngotools_chat/rust/src/session.rs:192-249 | whatever the run before, one step keeps the store right exactly when it does not persist a refresh of another session |
| StoredSessions.LateRefreshOverwrites | packages/ngotools_chat/rust/src/session.rs:130-135 | the inputs that break it: two runs from a new device in which tokens rotate and their late persisting brings back a forgotten session, or replaces the sign-in of another user |
| DartLiteral.ChainIsOnePass | lib/src/organization_app_setup.dart:747-748 | for every string the six replacements equal a one-pass escape of each character |
| DartLiteral.LiteralReadsBack | lib/src/organization_app_setup.dart:747-748 | reading the literal gives back the value and ends exactly behind it, for every value and every following text, except exactly for an empty literal directly before another quote |
| DartLiteral.NoRawControls | lib/src/organization_app_setup.dart:747-748 | an escaped value contains no newline, carriage return or tab |
| Polling.AttemptsIsCeiling | lib/src/live_preview.dart:374-375 | the number of attempts is the quotient of expiry and interval, rounded up |
| Polling.WaitForDecision | lib/src/live_preview.dart:348-388 | returns what the first answer that is not pending means: an approval with status 200, a rejection with 403, 404 or 410, else an exception; polls at most once more than the attempts, and gives up only after sleeping for at least the expiry and one interval but less than two |

## Left out

- EncodeEventContent: like the other codecs of records except events and diffs, it is a function over the following bytes, not a method on a cursor; the cursor methods call it for nested values.
- AddTextIsIdempotent: additions are single lines, as the patterns and enumerations of the descriptor schema require; a hand-edited snapshot could contain others.
- Declared: reads the manifest's lists by the editor's own line rule; quoted scalars, comments and flow lists of YAML are not interpreted.
- AddKeepsOutside: blank lines directly behind a list belong to its block, as in the code, and are dropped.
- Load: begins after each descriptor's own checks (schema, directory name, delivery, sorted lists), whose errors are handed in.
- TimelineArrives: the mapping of a timeline item is an arbitrary function; the per-variant content mapping is not modelled. Likewise for thread infos.
- StepKeepsIds: room details other than the id are arbitrary at each summary; names, counters and the latest event are not modelled.
- SupervisorTask: the failure count wraps at 2^32 as in release builds; debug builds panic there.
- RestoreStoredSession: a stored session that cannot be parsed or that the SDK refuses is a failure of the client's call.
- RunAndRestart: calls are made one after another; the steps of concurrent calls do not interleave. Rejected tokens and refreshes come between calls.
- ClassifyKind: the delay of a rate limit is given in milliseconds; converting a date is not modelled.
- AppString: a byte order mark at the start of a text is kept; Dart's decoder drops it.
- Opaque handles in the codec, the dispatcher and the wire functions of the generated file.
- The command line, `search` and `explain`, the Markdown rendering and snapshots of selected modules.
- Timeline and thread watches that replace one another, typing notifications and pagination.
- `start_sync` and `stop_sync` as a whole; a task that is aborted is a step of the supervisor.
- The SDK itself, OAuth, TLS, the database, encryption and task scheduling.
