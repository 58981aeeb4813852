# project-watch, modelled in Dafny

project-watch is a board for assigning company members to projects. Each project is shown as a
column ("container") that holds member items. In edit mode, items and columns are dragged
around, added, edited and deleted. Save writes the board to a document store. Cancel goes back
to the snapshot taken at load time. A second page lists the member roster. It can search the
roster, switch between active and deleted members, and delete a member logically.

This project models the logic of both pages, of their two dialogs, and of the two store
modules. It proves what each operation promises.

- types.dfy, module Types: the value records: `Position`, `MemberItem`, `ProjectContainer`, `MemberInfo`.
- strings.dfy, module Strings: `includes` and `trim` as the program uses them.
- lists.dfy, module Lists: `filter`, the stable `sort` by a numeric key, subsequences.
- validates.dfy, module Validates: `validateValue`: the first failing rule wins.
- engine.dfy, module Engine: the board page's handlers as functions on the board's value: container and item moves, the drop, the drag dispatch, the duplicate check, the add/edit/delete handlers, the member candidates, the render order.
- boardstate.dfy, module BoardState: the board page's state as the program keeps it, with shared objects and arrays: the `Board` class and the heap it refers to.
- persistence.dfy, module Persistence: `fetchProjects` and `saveProjects` as a log of store writes, and what that log does to the store.
- memberstore.dfy, module MemberStore: `fetchMembers`, `fetchAllMembers`, `deleteMember` and its `YYYY/MM/DD hh:mm` stamp.
- projectdialog.dfy, module ProjectDialog: the project dialog's tag editor and its deferred save.
- memberdialog.dfy, module MemberDialog: the member dialog's position checkboxes and member search.
- memberpage.dfy, module MemberPage: the roster page.

The board page changes shared objects in place. `handleAddMember` pushes onto a project's own
`items` array. `cancel` makes the working array and the snapshot array one array object. So
`BoardState` keeps an explicit heap of project objects and items arrays. `containers` and
`originalContainers` are sequences of references into it. `View` reads a sequence of
references back as the list of project values. Each `Board` method is proved to take `View`
to the matching `Engine` function's result. Each also states what becomes of the snapshot,
including when the two arrays share project objects or items arrays, except the two drag
handlers (see "## Left out").

## Model

| member | source | states |
|---|---|---|
| `Lists.Filter` | src/app/page.tsx:101-103 | `filter` keeps exactly the elements that pass the test and never lengthens the list |
| `Lists.FilterSubsequence` | src/app/member/page.tsx:107-113 | what a filter keeps stays in its original order |
| `Lists.SortBySorted` | src/app/page.tsx:595-597 | the render's sort by display order yields a list ordered by the key |
| `Lists.SortByStable` | src/app/page.tsx:595-597 | the sort is stable: the elements with one key keep their relative order |
| `Lists.SortBy` | src/app/page.tsx:595-597 | the sort keeps the elements: a permutation of the list |
| `Lists.SortByKeepsSorted` | src/app/page.tsx:595-597 | sorting a list already ordered by the key changes nothing |
| `Strings.IncludesAt` | src/app/member/page.tsx:109-111 | `includes` holds exactly when the needle occurs at some index |
| `Strings.TrimStart` | src/components/Project/Dialogs/ProjectDialog.tsx:42 | cuts only white space off the front, and leaves no white space first |
| `Strings.TrimEnd` | src/components/Project/Dialogs/ProjectDialog.tsx:42 | cuts only white space off the end, and leaves no white space last |
| `Strings.TrimSlice` | src/components/Project/Dialogs/ProjectDialog.tsx:42 | `trim` returns a contiguous slice, with only white space cut off either end and none left at its ends |
| `Strings.TrimEmptyIffBlank` | src/components/Project/Dialogs/ProjectDialog.tsx:102 | the trimmed text is empty exactly when the text is blank |
| `Strings.TrimIdempotent` | src/components/Project/Dialogs/ProjectDialog.tsx:42 | trimming twice is trimming once |
| `Validates.ValidateValue` | src/utils/validates.tsx:12-22 | `hasError` holds exactly when there is a message, and any message is some rule's message |
| `Validates.FirstRejecting` | src/utils/validates.tsx:16-20 | the index where the loop stops: every earlier rule accepts, and the rule there rejects |
| `Validates.PassedIffAllAccept` | src/utils/validates.tsx:16-21 | the value passes exactly when every rule accepts it |
| `Validates.ErrorIsFirstRejection` | src/utils/validates.tsx:16-21 | the error is the message of the first rule that rejects |
| `Validates.LaterRulesIgnored` | src/utils/validates.tsx:16-19 | rules after the first rejecting one never change the result |
| `Engine.RemoveAt` | src/app/page.tsx:329-332 | `splice(i, 1)`: the element at i goes, later ones shift down by one, and nothing else is lost |
| `Engine.InsertAt` | src/app/page.tsx:334-338 | `splice(i, 0, x)`: x lands at i, later ones shift up by one, and nothing else is added |
| `Engine.ArrayMove` | src/app/page.tsx:282-286 | `arrayMove`: the moved element lands at `to`, and those in between shift one place towards `from`; a permutation |
| `Engine.ArrayMoveSource` | src/app/page.tsx:282-286 | `arrayMove` fills each place from a distinct place of the input |
| `Engine.TargetIndex` | src/app/page.tsx:252-261 | the first container that is, or holds, the entity; -1 exactly when none does |
| `Engine.FindTarget` | src/app/page.tsx:252-261 | `findTarget`: None exactly when no container matches, otherwise the first match in list order |
| `Engine.FindItemIndex` | src/app/page.tsx:310-315 | `findIndex` on items: the first item with the id, -1 exactly when there is none |
| `Engine.IndexOfFound` | src/app/page.tsx:273-278 | with distinct ids, looking up a found container's index by its id gives back that index |
| `Engine.AllItemsUpdate` | src/app/page.tsx:319-335 | replacing one container changes the board's items by exactly that container's items |
| `Engine.AllItemsSplit` | src/app/page.tsx:319-335 | the board's items are its containers' items concatenated |
| `Engine.Renumber` | src/app/page.tsx:288-291 | every container's display order becomes its index, and nothing else changes |
| `Engine.SortContainer` | src/app/page.tsx:264-294 | None exactly when either container is missing; otherwise the display orders are 0..n-1 and the active container sits at the over container's index |
| `Engine.SortContainerAt` | src/app/page.tsx:273-291 | the container move is `arrayMove` between the two indices followed by renumbering |
| `Engine.SortContainerShifts` | src/app/page.tsx:280-291 | containers between the two indices shift by one place; the others keep their place; only display orders change |
| `Engine.SortContainerPermutes` | src/app/page.tsx:264-294 | after a container move the display orders are exactly the indices, the ids are a permutation, and the board's items are untouched |
| `Engine.ItemPlace` | src/app/page.tsx:298-315 | the container holding the item and the item's index in it |
| `Engine.SortItem` | src/app/page.tsx:297-342 | None exactly when either item is on no container; otherwise the containers' own fields are unchanged |
| `Engine.SortItemPlaces` | src/app/page.tsx:317-340 | after an item move, the active item stands where the over item stood |
| `Engine.SortItemKeepsOthers` | src/app/page.tsx:317-340 | containers other than the two holding the items are untouched |
| `Engine.SortItemLists` | src/app/page.tsx:317-340 | within one container the list is permuted; across containers the source loses exactly the item and the destination gains it |
| `Engine.SortItemAt` | src/app/page.tsx:317-340 | the item move as `arrayMove` within a list, or as remove-at and insert-at across lists |
| `Engine.SortItemConserves` | src/app/page.tsx:297-342 | an item move neither loses nor duplicates an item anywhere on the board |
| `Engine.WithinConserves` | src/app/page.tsx:317-326 | a move inside one container conserves the board's items |
| `Engine.TransferConserves` | src/app/page.tsx:327-340 | cutting an item from one list and inserting it into another conserves the board's items |
| `Engine.DropIntoContainer` | src/app/page.tsx:345-374 | None exactly when the item or the container is missing; otherwise the containers' own fields are unchanged |
| `Engine.DropPlaces` | src/app/page.tsx:361-373 | after a drop the item is the last of the target's items, even when the target is its own container; the source lost exactly it; every other container is untouched |
| `Engine.DropAt` | src/app/page.tsx:361-373 | the drop as remove-at from the source, then push onto the target |
| `Engine.DropConserves` | src/app/page.tsx:345-374 | a drop neither loses nor duplicates an item |
| `Engine.DropOnEmptyContainer` | src/app/page.tsx:345-374 | dropping one of two items on an empty container moves it there and leaves the other |
| `Engine.ItemHandlers` | src/app/page.tsx:383-396 | the item tests keep every container's own fields; they set a result whenever both ids carry the item marker and the item move applies, and nothing when the active id lacks the marker |
| `Engine.DragMove` | src/app/page.tsx:377-398 | `handleDragMove` does nothing when an id is missing or the ids are equal, and never changes the containers' own fields |
| `Engine.DragEnd` | src/app/page.tsx:400-428 | `handleDragEnd` does nothing when an id is missing or the ids are equal, and keeps the number of containers |
| `Engine.DragMoveConserves` | src/app/page.tsx:377-398 | dragging never creates or loses an item |
| `Engine.DragEndConserves` | src/app/page.tsx:400-428 | ending a drag never creates or loses an item |
| `Engine.ItemOverItem` | src/app/page.tsx:383-396 | an item over an item (an id without the container marker) gives exactly `SortItem`'s result |
| `Engine.ItemOverContainer` | src/app/page.tsx:383-396 | an item over a container gives the drop onto the lists the item move has left, or the item move's result when the drop does not apply |
| `Engine.ItemHandlersConserve` | src/app/page.tsx:383-396 | the item move followed by the drop conserves the items |
| `Engine.ContainersReorderOnlyOnEnd` | src/app/page.tsx:377-428 | two container ids leave the board alone on move and reorder it on drag end |
| `Engine.ItemHandlersOverrideContainerMove` | src/app/page.tsx:400-428 | an id containing both markers fires both kinds of handler, and the item handlers' result replaces the container move |
| `Engine.FirstDuplicateProjectSpec` | src/app/page.tsx:462-476 | the check finds nothing exactly when no project holds a member twice, and otherwise the first such project in board order |
| `Engine.CheckDuplicateMemberIds` | src/app/page.tsx:462-476 | the loop with a set of seen member ids (empty ids skipped) returns the first project holding a member twice |
| `Engine.AddProject` | src/app/page.tsx:60-73 | nothing while the dialog reports an error; otherwise one project appended with the new id, display order equal to the old count, and no items |
| `Engine.DeleteProject` | src/app/page.tsx:95-106 | nothing when the id is missing or the user declines; otherwise exactly the projects with another id remain, in their order |
| `Engine.EditProject` | src/app/page.tsx:76-92 | an edit keeps the number of projects |
| `Engine.EditProjectKeepsStructure` | src/app/page.tsx:76-92 | an edit changes only the name, description and tags of the projects with the id |
| `Engine.DeleteUndoesAdd` | src/app/page.tsx:60-106 | deleting a just-added project under its fresh id gives back the board |
| `Engine.AddProjectKeepsIdsUnique` | src/app/page.tsx:60-73 | adding under a fresh id keeps the ids distinct |
| `Engine.DeleteProjectKeepsIdsUnique` | src/app/page.tsx:95-106 | deleting keeps the ids distinct |
| `Engine.FilterKeepsUnique` | src/app/page.tsx:101-103 | a filter of a list with distinct ids has distinct ids |
| `Engine.DeleteThenAddRepeatsOrder` | src/app/page.tsx:60-106 | deleting does not renumber, so a later add can repeat a display order |
| `Engine.AddMember` | src/app/page.tsx:162-176 | nothing when no member is chosen or the project is missing; otherwise exactly one item pushed onto that project, all else unchanged |
| `Engine.EditMember` | src/app/page.tsx:179-191 | nothing changes when the member id is empty or no project has the id; the containers' own fields never change |
| `Engine.EditMemberKeepsItems` | src/app/page.tsx:179-191 | every item keeps its id and place; the items with the id take the new member and positions; the rest are unchanged |
| `Engine.DeleteMember` | src/app/page.tsx:194-230 | nothing when the project or item is missing or the user declines; otherwise the item is gone from that project only, whose other items keep their order |
| `Engine.DeleteMemberUndoesAdd` | src/app/page.tsx:162-230 | deleting a just-added item under its fresh id gives back the board |
| `Engine.AddMemberAddsOne` | src/app/page.tsx:162-176 | adding a member puts exactly one item onto the board |
| `Engine.MemberIds` | src/app/page.tsx:141 | the member ids of a project's items, in item order |
| `Engine.CandidateMembers` | src/app/page.tsx:125-154 | a member is offered exactly when listed, not marked deleted, and either the project is missing or empty, or the member is the one being edited, or it is not yet assigned there |
| `Engine.CandidatesInRosterOrder` | src/app/page.tsx:138-152 | the candidates are one filter of the roster, so they keep its order |
| `Engine.EditedMemberStaysCandidate` | src/app/page.tsx:143-149 | the member being edited stays selectable; other members assigned to the project are not offered |
| `Engine.RenderOrder` | src/app/page.tsx:595-597 | the render's sort is a permutation ordered by display order |
| `Engine.RenderAfterSortContainer` | src/app/page.tsx:288-291 | after a container move, the render sort changes nothing |
| `Engine.RenderOrderStable` | src/app/page.tsx:595-597 | projects with equal display orders are drawn in list order |
| `BoardState.View` | src/app/page.tsx:32-53 | the state read as values: one project per reference, each with its items array's contents |
| `BoardState.ExtendsKeepsView` | src/app/page.tsx:32-53 | allocating new objects or arrays changes no existing reference's value |
| `BoardState.ApartByMembership` | src/app/page.tsx:505-509 | the board and the snapshot are apart exactly when no project of one shares an items array with a project of the other |
| `BoardState.WriteOwn` | src/app/page.tsx:173 | a push onto a project's own items array changes that project's items only, and a snapshot that shares no array is unchanged |
| `BoardState.RebindFresh` | src/app/page.tsx:185-188 | rebinding a project object's `items` to a new array changes that project only |
| `BoardState.WriteShared` | src/app/page.tsx:173 | a write to a board project's items array keeps every snapshot project's fields, and keeps a snapshot project that shares no items array with the board as it was |
| `BoardState.PushReachesSnapshot` | src/app/page.tsx:165-173 | after the push, every snapshot project holding the pushed array reads the new items, and every other one reads as before |
| `BoardState.RebindShared` | src/app/page.tsx:185-188 | rebinding a board project's `items` keeps every snapshot project's fields, and keeps a snapshot project that shares no items array with the board as it was |
| `BoardState.RebindReachesSnapshot` | src/app/page.tsx:182-188 | after the rebinding, a snapshot entry that is the rebound object reads the new items, and every other one reads as before |
| `BoardState.ReplaceByCopy` | src/app/page.tsx:217-228 | a spread copy over a new items array replaces one entry without touching the snapshot |
| `BoardState.AppendNew` | src/app/page.tsx:63-71 | appending a new project over a new array adds that project and leaves the snapshot alone |
| `BoardState.ViewFilter` | src/app/page.tsx:101-103 | filtering the references by id is filtering the projects by id |
| `BoardState.FilterState` | src/app/page.tsx:101-104 | the filtered array keeps the state consistent and is the filtered board |
| `BoardState.ViewSortBy` | src/app/page.tsx:595-597 | sorting the references by their objects' display order is sorting the projects |
| `BoardState.SortState` | src/app/page.tsx:595-597 | the sorted array keeps the state consistent and is the render order |
| `BoardState.MoveView` | src/app/page.tsx:280-286 | `arrayMove` on references reads back as `arrayMove` on the projects |
| `BoardState.MoveState` | src/app/page.tsx:280-286 | `arrayMove` on references is `arrayMove` on the projects, and keeps the arrays separate with distinct ids |
| `BoardState.CloneStep` | src/app/page.tsx:434-436 | one more cloned project is a new object over a new array, and the copies so far read as before |
| `BoardState.Clone` | src/app/page.tsx:434-436 | `structuredClone` builds fresh objects and arrays reading back as the data, no two sharing an items array |
| `BoardState.Renumbered` | src/app/page.tsx:288-291 | spread copies with new display orders read back as `Renumber` |
| `BoardState.SpreadEdit` | src/app/page.tsx:79-88 | spread copies of the edited projects read back as `EditProject` |
| `BoardState.SortContainerObjs` | src/app/page.tsx:264-294 | the container move on references reads back as `SortContainer` and leaves the snapshot alone |
| `BoardState.SortItemObjs` | src/app/page.tsx:297-342 | the item move on shared items arrays reads back as `SortItem`; every snapshot project keeps its fields, and one sharing no items array with the board reads as before |
| `BoardState.DropObjs` | src/app/page.tsx:345-374 | the drop on shared items arrays reads back as `DropIntoContainer`; every snapshot project keeps its fields, and one sharing no items array with the board reads as before |
| `BoardState.ItemHandlersObjs` | src/app/page.tsx:383-396 | the item handlers on the heap read back as `ItemHandlers`, and keep the unshared snapshot projects |
| `BoardState.DragMoveObjs` | src/app/page.tsx:377-398 | `handleDragMove` on the heap reads back as `DragMove`, and keeps the unshared snapshot projects |
| `BoardState.DragEndObjs` | src/app/page.tsx:400-428 | `handleDragEnd` on the heap reads back as `DragEnd`, and keeps the unshared snapshot projects |
| `BoardState.AddProjectObjs` | src/app/page.tsx:60-73 | `handleAddProject` on the heap reads back as `AddProject` and leaves the snapshot alone |
| `BoardState.EditProjectObjs` | src/app/page.tsx:76-92 | `handleEditProject` on the heap reads back as `EditProject` and leaves the snapshot alone |
| `BoardState.DeleteProjectObjs` | src/app/page.tsx:95-106 | `handleDeleteProject` on the heap reads back as `DeleteProject` |
| `BoardState.AddMemberObjs` | src/app/page.tsx:162-176 | the push reads back as `AddMember`; it happens exactly when the member id is set and the project exists; every snapshot project over the pushed array then reads the new items, and the rest of the snapshot is unchanged |
| `BoardState.EditMemberObjs` | src/app/page.tsx:179-191 | the rebinding reads back as `EditMember`; it happens exactly when the member id is set and the project exists; a snapshot entry that is the rebound object then reads the new items, and the rest of the snapshot is unchanged |
| `BoardState.DeleteMemberObjs` | src/app/page.tsx:194-230 | the spread copy reads back as `DeleteMember` and leaves the snapshot alone |
| `BoardState.RenderObjs` | src/app/page.tsx:595-597 | the render sort on references reads back as `RenderOrder`; when both arrays are one, the sorted array is both |
| `BoardState.Board.constructor` | src/app/page.tsx:32-53 | the page starts with no projects and not in edit mode |
| `BoardState.Board.Load` | src/app/page.tsx:431-443 | `getProjects`: two separate deep copies of the fetched list, as board and snapshot |
| `BoardState.Board.EnterEditMode` | src/app/page.tsx:580 | the edit button only sets edit mode |
| `BoardState.Board.Cancel` | src/app/page.tsx:505-509 | `cancel` as written: the board becomes the snapshot array itself |
| `BoardState.Board.CancelFixed` | src/app/page.tsx:505-509 | cancel restoring a deep copy: the board equals the snapshot and the two stay apart |
| `BoardState.Board.AddProject` | src/app/page.tsx:60-73 | the board becomes `AddProject` of the old board; the snapshot is unchanged |
| `BoardState.Board.EditProject` | src/app/page.tsx:76-92 | the board becomes `EditProject` of the old board; the snapshot is unchanged |
| `BoardState.Board.DeleteProject` | src/app/page.tsx:95-106 | the board becomes `DeleteProject` of the old board; the snapshot is unchanged |
| `BoardState.Board.AddMember` | src/app/page.tsx:162-176 | the board becomes `AddMember` of the old board; with no member id or no such project nothing changes; otherwise every snapshot project that held the pushed items array reads the project's new items and every other snapshot project is unchanged; while the two are apart, the snapshot is unchanged and they stay apart |
| `BoardState.Board.EditMember` | src/app/page.tsx:179-191 | the board becomes `EditMember` of the old board; with no member id or no such project nothing changes; otherwise a snapshot entry that is the edited project object reads its new items and every other snapshot project is unchanged; while the two are apart, the snapshot is unchanged and they stay apart |
| `BoardState.Board.DeleteMember` | src/app/page.tsx:194-230 | the board becomes `DeleteMember` of the old board; the snapshot is unchanged |
| `BoardState.Board.DragMove` | src/app/page.tsx:377-398 | the board becomes `DragMove` of the old board; every snapshot project keeps its fields other than its items, and one sharing no items array with the board reads as before; while the two are apart, the snapshot is unchanged |
| `BoardState.Board.DragEnd` | src/app/page.tsx:400-428 | the board becomes `DragEnd` of the old board; every snapshot project keeps its fields other than its items, and one sharing no items array with the board reads as before; while the two are apart, the snapshot is unchanged |
| `BoardState.Board.Render` | src/app/page.tsx:595-597 | the in-place sort makes the board `RenderOrder` of itself, and sorts the snapshot too when they are one array |
| `BoardState.Board.Save` | src/app/page.tsx:479-502 | a duplicate member with a non-empty project name stops the save with nothing sent; otherwise the board is sent, edit mode ends, and a successful reload replaces board and snapshot |
| `BoardState.CancelTwiceAsWritten` | src/app/page.tsx:505-509 | load, cancel, add a member, cancel: the restored board still holds the added member |
| `BoardState.CancelTwiceFixed` | src/app/page.tsx:505-509 | the same steps with the deep-copy cancel restore the loaded board |
| `Persistence.FetchProjects` | src/utils/firebase/project.ts:13-24 | one project per document, in query order, each read by `ProjectOf` |
| `Persistence.ReadWritten` | src/utils/firebase/project.ts:47 | a project written whole reads back as itself |
| `Persistence.MissingFieldsDefault` | src/utils/firebase/project.ts:15-21 | the id is the document id, and missing items or tags read as empty lists |
| `Persistence.SaveProjects` | src/utils/firebase/project.ts:27-59 | the two loops issue exactly the save plan: one write per project in board order, then one delete per stored project whose id is gone |
| `Persistence.OneWritePerProject` | src/utils/firebase/project.ts:33-49 | the i-th write targets the i-th project; it is an update exactly when the id was stored, with the five fields, and otherwise a whole-document write |
| `Persistence.DeletesOnly` | src/utils/firebase/project.ts:52-58 | the second loop only deletes |
| `Persistence.DeletesExactlyDropped` | src/utils/firebase/project.ts:52-58 | an id is deleted exactly when it was stored and is not on the board |
| `Persistence.UpsertsWriteOnly` | src/utils/firebase/project.ts:33-49 | the first loop never deletes |
| `Persistence.SaveOrder` | src/utils/firebase/project.ts:27-59 | all writes come before all deletes, and no project on the board is deleted |
| `Persistence.ApplyAllConcat` | src/utils/firebase/project.ts:27-59 | running two logs one after the other is running their concatenation |
| `Persistence.UpsertStep` | src/utils/firebase/project.ts:34-48 | one write succeeds on a stored or new id, stores the project, and changes no other document |
| `Persistence.UpsertsEffect` | src/utils/firebase/project.ts:33-49 | the writes succeed, add the board's ids, store every project, and leave other documents alone |
| `Persistence.DeletesEffect` | src/utils/firebase/project.ts:52-58 | the deletes remove exactly the stored ids not kept |
| `Persistence.AnswerIds` | src/utils/firebase/project.ts:28-31 | the ids fetched are the store's keys |
| `Persistence.SaveStoresBoard` | src/utils/firebase/project.ts:27-59 | after a save the store holds exactly the board's projects, each reading back as itself |
| `MemberStore.MemberOf` | src/utils/firebase/member.ts:19-22 | reading a document keeps its deleted flag |
| `MemberStore.StoredIdOverrides` | src/utils/firebase/member.ts:19-22 | an `id` stored in the document overrides the document id |
| `MemberStore.MembersOf` | src/utils/firebase/member.ts:37-40 | one member per document, in query order |
| `MemberStore.FetchMembersSelects` | src/utils/firebase/member.ts:16-43 | `fetchMembers(flag)` is `fetchAllMembers()` cut down to the members with that flag, in order |
| `MemberStore.Decimal` | src/utils/firebase/member.ts:62 | `String(n)`: at least one character, all decimal digits |
| `MemberStore.DecimalValue` | src/utils/firebase/member.ts:62 | the digits of `String(n)` read back as n |
| `MemberStore.DecimalNoLeadingZero` | src/utils/firebase/member.ts:62 | the year is not padded: no leading zero, one digit exactly below 10 |
| `MemberStore.PadStart2` | src/utils/firebase/member.ts:62-66 | `padStart(2, "0")` leaves two or more characters |
| `MemberStore.Pad2Value` | src/utils/firebase/member.ts:62-66 | month, day, hour and minute take exactly two digits, read back as themselves, and start with "0" exactly below 10 |
| `MemberStore.Layout` | src/utils/firebase/member.ts:62-66 | where each part sits in `YYYY/MM/DD hh:mm` |
| `MemberStore.DeletedAtRoundTrip` | src/utils/firebase/member.ts:60-66 | the stamp holds the moment, with month `getMonth() + 1`: reading it back gives the moment |
| `MemberStore.DocIndex` | src/utils/firebase/member.ts:58 | the document addressed by the id, or -1 exactly when there is none |
| `MemberStore.LogicalDelete` | src/utils/firebase/member.ts:57-72 | the update fails exactly when no document has the id; otherwise no document goes, only that one is marked with the flag and stamp, and it moves from the active to the deleted list |
| `ProjectDialog.AddTag` | src/components/Project/Dialogs/ProjectDialog.tsx:41-47 | an accepted tag is the trimmed input appended, and it was not there yet |
| `ProjectDialog.AddTagAccepts` | src/components/Project/Dialogs/ProjectDialog.tsx:42-43 | the input is accepted exactly when it is not blank and its trimmed text is not a tag yet |
| `ProjectDialog.AddTagKeepsClean` | src/components/Project/Dialogs/ProjectDialog.tsx:41-47 | tags stay free of duplicates and blanks |
| `ProjectDialog.RemoveTag` | src/components/Project/Dialogs/ProjectDialog.tsx:49-51 | every copy of the tag goes; every other tag stays, in its order |
| `ProjectDialog.PopTag` | src/components/Project/Dialogs/ProjectDialog.tsx:58 | `slice(0, -1)`: a prefix one shorter, or empty for an empty list |
| `ProjectDialog.RemoveUndoesAdd` | src/components/Project/Dialogs/ProjectDialog.tsx:41-51 | removing the tag just added gives the list back |
| `ProjectDialog.PopUndoesAdd` | src/components/Project/Dialogs/ProjectDialog.tsx:41-60 | Backspace after an add gives the list back |
| `ProjectDialog.RemoveKeepsClean` | src/components/Project/Dialogs/ProjectDialog.tsx:49-51 | removing keeps the tags free of duplicates and blanks |
| `ProjectDialog.SaveEnabledIffNamed` | src/components/Project/Dialogs/ProjectDialog.tsx:100-105 | with the name rule's verdict as the error flag, the button is enabled exactly for a name that is not blank |
| `ProjectDialog.Dialog.constructor` | src/components/Project/Dialogs/ProjectDialog.tsx:38-39 | empty tag input, no save waiting |
| `ProjectDialog.Dialog.PageSetsTags` | src/components/Project/Dialogs/ProjectDialog.tsx:82-87 | a new tag list and edit flag arrive; a waiting save runs with the new flag (edit or add, then close) and is cleared |
| `ProjectDialog.Dialog.Cancel` | src/components/Project/Dialogs/ProjectDialog.tsx:150-152 | the cancel button calls only the close callback and leaves a waiting save waiting |
| `ProjectDialog.Dialog.SetTagInput` | src/components/Project/Dialogs/ProjectDialog.tsx:38 | typing changes only the input |
| `ProjectDialog.Dialog.AddTagFromInput` | src/components/Project/Dialogs/ProjectDialog.tsx:41-47 | an accepted tag goes to the list and clears the input; a rejected input changes nothing |
| `ProjectDialog.Dialog.RemoveTagAt` | src/components/Project/Dialogs/ProjectDialog.tsx:49-51 | the filtered list arrives, and a waiting save runs |
| `ProjectDialog.Dialog.KeyDown` | src/components/Project/Dialogs/ProjectDialog.tsx:53-60 | Enter tries an add; Backspace on an empty input drops the last tag; otherwise nothing changes; a waiting save goes out exactly when the key hands the page a new tag list |
| `ProjectDialog.Dialog.Save` | src/components/Project/Dialogs/ProjectDialog.tsx:62-87 | with an empty input: save and close now; with an accepted pending tag: the tag is added, then save and close; with a rejected one: nothing saved and a save left waiting |
| `ProjectDialog.Dialog.SaveFixed` | src/components/Project/Dialogs/ProjectDialog.tsx:62-87 | every press saves exactly once and leaves no save waiting |
| `ProjectDialog.RejectedPendingAsWritten` | src/components/Project/Dialogs/ProjectDialog.tsx:62-87 | a save with a rejected pending tag saves nothing; removing a tag later saves and closes |
| `ProjectDialog.RejectedPendingThenBackspace` | src/components/Project/Dialogs/ProjectDialog.tsx:53-87 | a save with a rejected pending tag saves nothing; clearing the input and pressing Backspace then saves and closes |
| `ProjectDialog.RejectedPendingThenCancel` | src/components/Project/Dialogs/ProjectDialog.tsx:62-87 | a save with a rejected pending tag saves nothing; after cancel, the page's delayed reset (`[]`, not editing) makes the waiting save call the add-project callback, in either mode |
| `ProjectDialog.RejectedPendingFixed` | src/components/Project/Dialogs/ProjectDialog.tsx:62-87 | with the fixed save, the press saves once, and neither a later removal nor the page's reset saves anything more |
| `MemberDialog.Initial` | src/components/Project/Dialogs/MemberDialog.tsx:48-56 | one checkbox per catalogue entry |
| `MemberDialog.InitialChecks` | src/components/Project/Dialogs/MemberDialog.tsx:50-53 | in edit mode an entry starts checked exactly when some given position has its id |
| `MemberDialog.Toggle` | src/components/Project/Dialogs/MemberDialog.tsx:59-65 | a toggle keeps the number of entries |
| `MemberDialog.ToggleFlipsOnly` | src/components/Project/Dialogs/MemberDialog.tsx:59-65 | exactly the entries with the id flip; ids and labels stay |
| `MemberDialog.ToggleTwice` | src/components/Project/Dialogs/MemberDialog.tsx:59-65 | toggling an id twice gives the list back |
| `MemberDialog.SelectedSpec` | src/components/Project/Dialogs/MemberDialog.tsx:73-75 | a position is saved exactly when a checked entry stands for it, with the label as name |
| `MemberDialog.RoundTrip` | src/components/Project/Dialogs/MemberDialog.tsx:50-53 | positions to checkboxes to positions gives the catalogue's entries for the named ids, in catalogue order |
| `MemberDialog.CatalogPositionsSpec` | src/components/Project/Dialogs/MemberDialog.tsx:50-53 | a position comes out exactly when it is a catalogue entry whose id a given position names |
| `MemberDialog.CatalogPositionsUnique` | src/components/Project/Dialogs/MemberDialog.tsx:50-53 | with distinct catalogue ids, no id comes out twice |
| `MemberDialog.CatalogPositionsByIds` | src/components/Project/Dialogs/MemberDialog.tsx:50-53 | the result depends only on which catalogue ids are named |
| `MemberDialog.RoundTripStable` | src/components/Project/Dialogs/MemberDialog.tsx:50-53 | after one round trip the positions are a fixed point |
| `MemberDialog.FilteredMembers` | src/components/Project/Dialogs/MemberDialog.tsx:67-70 | the empty query is no special case: the result is always the members whose name contains the query, in order |
| `MemberDialog.Dialog.constructor` | src/components/Project/Dialogs/MemberDialog.tsx:43-46 | starts from the catalogue and an empty query |
| `MemberDialog.Dialog.SyncPositions` | src/components/Project/Dialogs/MemberDialog.tsx:48-56 | in edit mode the checkboxes show the given positions; in add mode nothing changes |
| `MemberDialog.Dialog.ToggleCheckbox` | src/components/Project/Dialogs/MemberDialog.tsx:59-65 | the checkboxes become the toggled list |
| `MemberDialog.Dialog.SetQuery` | src/components/Project/Dialogs/MemberDialog.tsx:113 | typing changes only the query |
| `MemberDialog.Dialog.Save` | src/components/Project/Dialogs/MemberDialog.tsx:72-81 | exactly one call, edit or add by the mode, with the checked positions |
| `MemberDialog.Dialog.Close` | src/components/Project/Dialogs/MemberDialog.tsx:90-95 | back to the catalogue and an empty query, then the close call |
| `MemberDialog.EditAndSave` | src/components/Project/Dialogs/MemberDialog.tsx:48-81 | opening in edit mode and saving at once passes the catalogue's entries for the named ids |
| `MemberPage.Values` | src/app/member/page.tsx:58-71 | the field each column shows, in column order |
| `MemberPage.GetHeaders` | src/app/member/page.tsx:57-73 | name, email and belong_to first; then deletedAt exactly when listing deleted members, and delete and edit exactly otherwise |
| `MemberPage.SearchFilter` | src/app/member/page.tsx:102-116 | the all-empty case is no special case: always the members whose three fields contain their queries |
| `MemberPage.SearchKeepsOrder` | src/app/member/page.tsx:107-113 | the filtered list is an order-preserving subsequence of the member list |
| `MemberPage.Page.constructor` | src/app/member/page.tsx:13-25 | the mount fetches the active members; the table shows their search |
| `MemberPage.Page.GetMembers` | src/app/member/page.tsx:81-92 | a successful fetch replaces the member list, and the table shows its search; a failed one changes nothing |
| `MemberPage.Page.HandleDeletedFilterList` | src/app/member/page.tsx:75-79 | the flag flips and the members with the new flag are fetched |
| `MemberPage.Page.HandleReset` | src/app/member/page.tsx:94-100 | all three queries cleared, the flag false, the active members fetched |
| `MemberPage.Page.SetSearch` | src/app/member/page.tsx:102-116 | new queries, and the table shows their search |
| `MemberPage.Page.HandleDelete` | src/app/member/page.tsx:39-55 | nothing for a member without an id or when declined; otherwise the flag is cleared, the logical delete runs, and the active members are fetched |
| `MemberPage.DeleteFromFreshPage` | src/app/member/page.tsx:39-55 | after a confirmed delete the store keeps every document, and the table shows only active members, without the deleted one |

## Left out

- The heap: JavaScript objects and arrays are modelled as two maps from references, so array identity and sharing are explicit. The board's working array and snapshot array are one array object after `cancel`, which `sameArray` tracks. Once a handler that builds a new array (adding, editing or deleting a project, deleting a member, a container move) runs after a cancel, the two arrays are distinct but still share project objects and items arrays. The `Board` methods' contracts cover that case too; where they leave something open it is listed below.
- `BoardState.Board.DragMove`: when the board and the snapshot share items arrays, the contract states only that every snapshot project keeps its fields other than its items, and that a snapshot project sharing no items array with the board reads as before. Which items a shared snapshot project ends up with is not stated, because the item move and the drop splice the shared arrays in several steps.
- `BoardState.Board.DragEnd`: the same as `BoardState.Board.DragMove`: for a snapshot project sharing an items array with the board, only its fields other than its items are stated.
- Rendering, styling, modals, loading flags, and the presentational components.
- The Firestore SDK: every store call is either a parameter (the fetched documents) or an entry in a log of store operations. `getDocs`, `setDoc`, `updateDoc`, `deleteDoc`, `addDoc` and queries are not modelled as I/O.
- dnd-kit itself: the sensors and collision detection. `arrayMove` is modelled as "remove at `from`, insert at `to`".
- `generateTimestampId` and `new Date()`. The generated id suffix and the date parts are parameters.
- `BoardState.Board.AddProject`: the generated id is required to be new on the board, because a timestamp plus random digits is assumed fresh.
- `BoardState.Board.Load`: the fetched projects must have distinct ids, because document ids in one collection are distinct.
- `confirm` and `alert` are boolean parameters, or are left out.
- The `setTimeout` resets: the page's delayed reset of the project and member dialogs' fields, and the member dialog's reset after save. They are timing-based. `ProjectDialog.Dialog.PageSetsTags` stands for the page's delayed `setTags([])` and `setIsProjectEdit(false)` (src/app/page.tsx:112-117) when it happens.
- async ordering and React's stale closures. Every handler runs to completion on the state of its render, and effects run after the handler. `getFilterdMembers` is modelled on the roster it is given.
- `ProjectDialog.Dialog.PageSetsTags`: assumes the page always hands in a new array, so the effect always fires. A page that handed back the same array would not trigger it.
- `MemberDialog`: the position catalogue `CHECKBOX_ITEMS` is not part of this model, so the catalogue is a parameter.
- `MemberStore.Moment`: the year is a natural number. Negative years and the time zone are not modelled.
- `MemberStore.ParseDeletedAt`: defined only to state the round trip; the program never parses the stamp.
- `addMember` and `updateMember` in src/utils/firebase/member.ts, `MemberInfoDialog`, the `Combobox`, `Input` and `Textarea` wrappers are not part of this model. They are form wiring around store calls.
- `MemberPage.Page.HandleDelete`: a store update that fails because the document is missing ends the handler after clearing the flag. Other store failures are not modelled.
- `Engine.EditProject` and `Engine.EditMember`: their own contracts state only shape (and, for `Engine.EditMember`, when nothing changes); what they change is stated by `Engine.EditProjectKeepsStructure` and `Engine.EditMemberKeepsItems`.

## Findings

| source | as written | input that shows it | evidently intended | confidence | as-written member | corrected member |
|---|---|---|---|---|---|---|
| src/app/page.tsx:505-509 | `cancel` sets the working board to the snapshot array itself. From then on, the board and the snapshot share every project object and items array. | Load a board, enter edit mode, cancel, enter edit mode, add a member to the first project, cancel. The push went onto the snapshot's own items array, so the restored board still holds the added member. | Cancel restores an independent copy of the snapshot, as the load does with `structuredClone`, so a later cancel brings back the loaded board. | not executed | `BoardState.CancelTwiceAsWritten` | `BoardState.CancelTwiceFixed` |
| src/components/Project/Dialogs/ProjectDialog.tsx:62-87 | A save with a pending tag input sets `shouldSave` and relies on the tag list changing. A pending tag that is rejected changes no list, so nothing is saved and `shouldSave` stays set. | Type " " (or an existing tag) in the tag input and press the add/edit button. Nothing is saved. While the dialog is open, the next tag-list change (removing a tag, Backspace on an empty input) saves and closes. If the user presses cancel instead, the page's delayed reset (src/app/page.tsx:112-117) hands in `[]` with the edit flag cleared, and the waiting save calls the add-project callback even when the dialog was opened to edit. Unless the page's error flag is set, that adds a project whose name, description and tags are empty after the reset (src/app/page.tsx:60-72). | Pressing the button saves exactly once, whether or not the pending tag is accepted. | not executed | `ProjectDialog.RejectedPendingAsWritten`, `ProjectDialog.RejectedPendingThenBackspace`, `ProjectDialog.RejectedPendingThenCancel` | `ProjectDialog.RejectedPendingFixed` |
