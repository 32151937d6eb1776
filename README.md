# Taipy Studio configuration editor: a verified model of its core

This project models the deterministic core of Taipy Studio, the editor extension for Taipy
configuration files (TOML documents with `[DATA_NODE.name]`, `[TASK.name]`, `[SEQUENCE.name]`
and `[SCENARIO.name]` sections). It proves properties of the model. It covers four parts:

- **Perspective subgraph extractor** (`webviews/src/utils/nodes.ts`, module `Nodes`).
  `applyNode` walks the display model from a root entity. It uses a visited set, a queue of
  `(type, name, follow)` visits and a pool of links that shrinks as links are taken.
  `applyPerspective` runs that walk from the perspective's root, drops the root's own type
  bucket, merges in the pinned extra entities and reattaches the root's sequence.
  `getNodeTypes` gives the layout order of node types.
- **Link engine and lifecycle edits** (`src/editors/ConfigEditor.ts`, modules `Links`,
  `Lifecycle` and `Editor`). The document is seen through its symbol index: a map from
  section type to entities, each with its array-valued properties. Edits are a list of
  replace, insert, delete and append records.
  - `createOrDeleteLink` adds, removes or clears one reference and cascades to the
    scenarios' additional data nodes.
  - `removeNodeLinks` strips every reference to an entity from its parents.
  - The module also covers entity deletion, duplication, creation and removal from a
    perspective, edits of a sequence's task list, and the default-name fold of `getNodeName`.
  - The class `Editor.ConfigEditor` holds the per-perspective view cache (positions and
    extra entities) and the panel registry. Its methods update these fields in place.
  - `Editor.CheckChildType` is the child-type check run before a node is shown in a
    diagram.
- **Drop edits** (`src/providers/DocumentDropEditProvider.ts`, module `Drop`). A dropped
  tree item becomes one of two texts:
  - a quoted section name inside a droppable list property of the same document;
  - a copy of the entity's section when the item comes from another document.
- **Schema-derived tables** (`src/schema/validation.ts`, module `Schema`). The memoised
  tables the extension derives from the configuration's JSON schema are held by a class
  `Schema.Tables` whose methods fill them while they are empty:
  - property lists and kinds;
  - enumerations;
  - default values;
  - Python function and class references.

`Js` models the JavaScript semantics these parts rely on: `split`, `join`, `indexOf`,
`lastIndexOf`, `trim`, ASCII `toLowerCase`, decimal number text, JSON values and
truthiness. `Names` holds the section type and property name constants of
`shared/names.ts`.

Host services are parameters: the symbol lookups, the schema relations
(`getDescendantProperties`, `getChildTypes`, `getParentTypes`), `getSectionName`,
`getUnsuffixedName`, uri parsing and `isRoot`. The user's answers to prompts and the host's
acceptance of a workspace edit are method inputs. A thrown JavaScript error is an explicit
outcome:
- `None` for functions;
- `LinkThrown` for `createOrDeleteLink`;
- `Thrown` for `applyPerspective`;
- `Rejected` for an async command.

Every method whose source contains a loop carries that loop, with its invariants. Each such
method is proved equal to a specification function, and the properties of that function
are lemmas.

## Model

| member | source | states |
|---|---|---|
| Nodes.ScanPool | webviews/src/utils/nodes.ts:42-58 | One scan at node (t, n) takes exactly the links that start at (t, n) or run from a data node to it. The taken links are the pool's matching links in pool order, and the pool left is its other links in their order (`Taken` and `Left`); together they split the pool as a multiset. Each taken link queues its target, followed unless it is a data node, or queues its data-node source without following. |
| Nodes.ScanStep | webviews/src/utils/nodes.ts:43-53 | Classifying one more link of the pool keeps the scan's invariant, whether the link is taken or kept. |
| Nodes.AddNode | webviews/src/utils/nodes.ts:35-38 | The result table holds exactly the old nodes plus (t, n). Every node keeps the model's data. |
| Nodes.Visit | webviews/src/utils/nodes.ts:30-61 | One loop turn keeps the traversal invariant. It marks the visited key and the root as done, and keeps the sum of pool size and queue size. Every push is paid for by a link leaving the pool, so the loop terminates. |
| Nodes.Include | webviews/src/utils/nodes.ts:33-41 | A first visit that does not follow links copies the node when the model has it, expands nothing and takes no link. |
| Nodes.Expand | webviews/src/utils/nodes.ts:33-58 | A first visit that follows links copies and expands the node. It moves the links it takes from the pool to the result and queues one visit per taken link. |
| Nodes.ExpandVisited | webviews/src/utils/nodes.ts:33-38 | Copying and marking the node keeps the result a sub-table of the model and keeps each key expanded at most once. |
| Nodes.ExpandLinks | webviews/src/utils/nodes.ts:42-58 | Moving the taken links keeps this invariant: result links plus pool equal the model's links as multisets, and every result link was taken at an expanded node. |
| Nodes.ExpandQueue | webviews/src/utils/nodes.ts:45-50 | Every queued visit is an end of a result link, and it is followed exactly when it is not a data node. |
| Nodes.ExpandCover | webviews/src/utils/nodes.ts:42-53 | Every collected node is the root or an end of a result link. |
| Nodes.Traverse | webviews/src/utils/nodes.ts:23-62 | Result nodes are model nodes with the same data. Result links are a sub-multiset of the model's links, so each occurs at most as often as in the model. No key is expanded twice, and only the root may be expanded as a data node. Every link an expanded node takes is emitted. Every collected node is the root or an end of an emitted link. The root is expanded first, and every later expanded node is the other end of an emitted link taken at an earlier one (`Queues`), so every expanded node is reached from the root. An empty type or name gives an empty result. With clean ends the result is `Closed`: every end of an emitted link that the model has is collected, and the other end of every link taken at an expanded node is expanded too, unless it is a data node or missing from the model. |
| Nodes.ExpandReach | webviews/src/utils/nodes.ts:33-58 | Expanding a visit that is the root's or was queued from an expanded node keeps the expanded nodes reached from the root, and every visit it queues is queued from it. |
| Nodes.WalkStep | webviews/src/utils/nodes.ts:30-61 | One turn of the loop, a visit and then the next visit taken from the head of the queue, keeps the walk's invariant and shrinks the pool-plus-queue measure. |
| Nodes.KeyInjective | webviews/src/utils/nodes.ts:33-34 | Two ends whose types have no `.` have the same `${type}.${name}` key only when they are equal. |
| Nodes.ExpandClosure | webviews/src/utils/nodes.ts:33-58 | Expanding a node keeps the closure bookkeeping. A visited end the model has is collected, and a visited end other than a data node is expanded. For each link an expanded node takes, the other end is visited or still queued. |
| Nodes.IncludeClosure | webviews/src/utils/nodes.ts:33-41 | Copying an end without following it keeps the closure bookkeeping. |
| Nodes.SkipClosure | webviews/src/utils/nodes.ts:33 | Skipping an end already visited keeps the closure bookkeeping. |
| Nodes.Dequeue | webviews/src/utils/nodes.ts:61 | Taking the head of the queue keeps the closure bookkeeping, and the head is a clean end. |
| Nodes.ClosureDone | webviews/src/utils/nodes.ts:29-63 | When a clean walk ends with an empty queue, its result is `Closed`. |
| Nodes.LinkEndsDone | webviews/src/utils/nodes.ts:35-53 | At the end of a clean walk, both ends of a link taken at an expanded node are collected when the model has them. |
| Nodes.TakenEmitted | webviews/src/utils/nodes.ts:42-58 | At the end of the walk every link an expanded node takes was emitted, and no link is emitted more often than the model has it. |
| Nodes.SpliceEach | webviews/src/utils/nodes.ts:55-58 | The splices leave only links of the pool, and remove at most one link per index. |
| Nodes.RemoveTakenAsWritten | webviews/src/utils/nodes.ts:55-58 | Removing the taken links as written leaves only links of the pool, at most one fewer per taken position. |
| Nodes.AsWrittenKeepsTakenLink | webviews/src/utils/nodes.ts:55-58 | With the source's text-order `sort()` of indices, a scan taking pool positions 2 and 10 of 11 splices position 2 twice. The link taken at position 10 stays in the pool. |
| Nodes.ApplyNode | webviews/src/utils/nodes.ts:19-64 | `NodeResult`: a model without a node table or a link array comes back unchanged. Otherwise the result has empty sequences, its nodes are model nodes and its links a sub-multiset of the model's. The root is expanded first, each later expanded node is the other end of an emitted link taken at an earlier one, and no key is expanded twice. The emitted links are exactly the model's links taken at expanded nodes. A node is collected only as the root or as an end of an emitted link. The root is collected when the model has it, and every collected node other than a data node is expanded. With clean ends the result is `Closed`. |
| Nodes.ApplyNodeChain | webviews/src/utils/nodes.ts:19-64 | From a scenario S whose model holds the links S → task T and T → data node D, `applyNode` collects S, T and D. |
| Nodes.ChainCollected | webviews/src/utils/nodes.ts:19-64 | Any `NodeResult` from such a scenario S holds S, T and D. |
| Nodes.MergeNodes | webviews/src/utils/nodes.ts:84-90 | Every node of either table is in the merge. The extra node's data wins over the base node's. |
| Nodes.MergeExtra | webviews/src/utils/nodes.ts:79-92 | The extra entity is applied exactly when it has a type and a name and is not yet in the growing result. Otherwise nothing changes. Nodes stay model nodes, links are only appended, and an applied entity the model has is present afterwards. |
| Nodes.MergeExtras | webviews/src/utils/nodes.ts:78-93 | Without a link array, the merge throws exactly when some extra would be applied. With one, it keeps nodes and links within the model, lists only valid given extras, and adds a type bucket only if some extra was applied. The tables it passes through satisfy `MergedFrom`: one `MergeStep` per extra, and the applied list is, in order, the extras that were valid and absent when their turn came (`AppliedAt`). Every valid extra the model has is present at the end. None is applied exactly when every valid extra is present from the start. |
| Nodes.MergeAt | webviews/src/utils/nodes.ts:79-92 | One turn of the merge loop over a model with a link array keeps the loop's trace and keeps nodes and links within the model. |
| Nodes.AppliedAt | webviews/src/utils/nodes.ts:81-82 | The extras merged, as the valid ids absent from the table each one met, are at most as many as the extras and are all valid given extras. |
| Nodes.AppliedAtSame | webviews/src/utils/nodes.ts:81 | The applied list depends only on the tables the extras met. |
| Nodes.AppliedAtNext | webviews/src/utils/nodes.ts:81-82 | One more extra appends itself to the applied list exactly when it is valid and absent from the table it meets. |
| Nodes.MergesNext | webviews/src/utils/nodes.ts:79-92 | One more merge that adds nothing unless the extra is applied, loses nothing, and brings an applied extra the model has, extends the merge trace by one `MergeStep`. |
| Nodes.MergesDone | webviews/src/utils/nodes.ts:78-93 | The finished loop's trace is `MergedFrom`, with its presence and emptiness consequences. |
| Nodes.MergedFromPresent | webviews/src/utils/nodes.ts:79-92 | After a merge trace, every valid extra the model has is present. None was applied exactly when every valid extra was present from the start, and then the table is unchanged. |
| Nodes.MergedPrefix | webviews/src/utils/nodes.ts:79-92 | The same facts for the first `i` merges, by induction on `i`. |
| Nodes.ApplyPerspective | webviews/src/utils/nodes.ts:66-98 | A missing model or a root perspective gives `[model, undefined]`. A model without nodes throws. Without links, the root bucket is removed or the merge throws. Otherwise the root's bucket is gone unless an extra brought it back, and nodes and links stay within the model. The traversal's result `base` satisfies `NodeResult` from the perspective's root. The merges run from `base`'s nodes without the root's type to the result's table, as `MergedFrom` states, so by `Nodes.MergedFromPresent` every valid extra the model has is in the result. `base`'s links come first in the result's links. The root's sequence is reattached, and the applied extras come back `;`-joined, or `undefined` when none were applied. |
| Nodes.ApplyPerspectiveChain | webviews/src/utils/nodes.ts:66-98 | The perspective `SCENARIO.S` of a scenario S whose model holds the links S → task T and T → data node D, with no extra entities, shows T and D but not S, whose bucket is removed. |
| Nodes.SequenceOf | webviews/src/utils/nodes.ts:94-96 | The result's sequences hold at most the root name's entry, copied from the model when present. |
| Nodes.GetNodeTypes | webviews/src/utils/nodes.ts:100-106 | A SCENARIO perspective lays out `[SEQUENCE, TASK, DATA_NODE]`. Every other perspective falls back to `[SCENARIO, TASK, DATA_NODE]`. |
| Links.Normalise | src/editors/ConfigEditor.ts:544-548 | When not clearing and the source is a data node, the edited entity is the target and the child is the source. Otherwise it is the other way round. |
| Links.LastKeyFor | src/editors/ConfigEditor.ts:549-555 | The property is the last key whose declared type is the child type, and there is none exactly when no key has it. |
| Links.LinkProperty | src/editors/ConfigEditor.ts:549-555 | Clearing every link uses the target type as the property. Otherwise the property is the last one declared with the child's type, among the node's input properties for a link from a data node and its output properties for any other, and there is none (`""`) when no property has that type. |
| Links.Without | src/editors/ConfigEditor.ts:595 | The filtered list holds exactly the references whose entity name differs from the child. It is the list itself when nothing refers to the child. |
| Links.WithoutAppend | src/editors/ConfigEditor.ts:595 | The filter keeps the order of the rest: it distributes over concatenation. |
| Links.NewLinks | src/editors/ConfigEditor.ts:591-595 | Create appends the child's section name, clear gives `[]`, and delete filters every reference to the child. |
| Links.FirstShrink | src/editors/ConfigEditor.ts:572-587 | At most one scenario is edited. There is an edit exactly when some scenario lists the task and would lose the data node. The edit goes to the first such scenario and is its additional data nodes without the data node. |
| Links.FirstShrinkTail | src/editors/ConfigEditor.ts:572-587 | Past a first scenario that does not qualify, the search result for the rest is the result for the whole list. |
| Links.Cascade | src/editors/ConfigEditor.ts:567-589 | There is at most one cascade edit, and none unless the link joins a data node and a task in a document with scenarios. Then the task is the normalised end of type task and the data node the other end. There is no edit exactly when no scenario lists the task and would lose the data node; otherwise the edit is that of the first such scenario, its additional data nodes without the data node. |
| Links.CascadeEnds | src/editors/ConfigEditor.ts:567-589 | In terms of the ends as given, for a create, delete or clear: the scenario edited is the first one listing the task end that would lose the data-node end. |
| Links.CreateOrDeleteLink | src/editors/ConfigEditor.ts:534-610 | The incoming edits are a prefix of the outgoing ones, with at most two added. The call throws exactly when deleting through a property whose list the entity lacks. Falling off the end without a value happens only when creating. |
| Links.NoPropertyNoEdits | src/editors/ConfigEditor.ts:549-558 | Without a property for the child type, the incoming edits come back unchanged. |
| Links.CreateAppends | src/editors/ConfigEditor.ts:590-597 | Creating on an existing list emits the cascade and one replace, after which the property lists the old references followed by the child's section name. |
| Links.CreateInserts | src/editors/ConfigEditor.ts:598-610 | Creating without the property inserts `p = [child]` after the entity's name. When the entity is missing, only the cascade is emitted and no value is returned. |
| Links.DeleteFilters | src/editors/ConfigEditor.ts:560-597 | Deleting from a missing list throws, and an empty list gives no edit. Otherwise one replace leaves exactly the references not to the child, in order. |
| Links.DeleteAllClears | src/editors/ConfigEditor.ts:550-597 | Clearing a non-empty list replaces it by `[]`, from the source whatever its type. |
| Links.DeleteAllMissingThrows | src/editors/ConfigEditor.ts:560-566 | Clearing a property the entity lacks throws. |
| Links.CreateThenDeleteRestores | src/editors/ConfigEditor.ts:590-597 | Creating a link to a child not yet referenced and then deleting it gives the original list back, when section names resolve back to entity names. |
| Links.RunCalls | src/editors/ConfigEditor.ts:693-728 | A run of calls on a shared edit list only extends the list, by at most two edits per call. |
| Links.RunCallsAppend | src/editors/ConfigEditor.ts:813-816 | Running two lists of calls one after the other on the same edit list is running their concatenation. |
| Lifecycle.ApplyEdits | src/editors/ConfigEditor.ts:499-506 | An empty edit list is not sent and gives `false`. Otherwise the result is the host's answer. |
| Lifecycle.ParentCalls | src/editors/ConfigEditor.ts:693-725 | Each parent gives at most two delete calls, neither of them a create or a clear. |
| Lifecycle.RemovalCalls | src/editors/ConfigEditor.ts:687-729 | Removing the links of an entity only deletes, and never creates or clears. |
| Lifecycle.RemovalCallsComplete | src/editors/ConfigEditor.ts:688-724 | Every parent of a parent type that lists the entity under its input property gets a delete call in that direction, and likewise for its output property: no reference is missed. |
| Lifecycle.TypeCalls | src/editors/ConfigEditor.ts:692-727 | The calls for one parent type only delete, each between the entity and a parent of that type in one direction or the other, and there are at most twice as many calls as parents. |
| Lifecycle.TypeCallsComplete | src/editors/ConfigEditor.ts:692-724 | The same, for the parents of one parent type. |
| Lifecycle.RemovalCallsReferenced | src/editors/ConfigEditor.ts:694-724 | Every call concerns a parent of a parent type that lists the entity under its input or output property, in the direction that property fixes. |
| Lifecycle.NoReferencesNoCalls | src/editors/ConfigEditor.ts:687-729 | A document in which no parent lists the entity gives no calls. |
| Lifecycle.RemoveNodeLinks | src/editors/ConfigEditor.ts:680-730 | The nested loops produce exactly the run of removal calls over the parent types, entities and properties in order, or a throw. |
| Lifecycle.RemoveFromParents | src/editors/ConfigEditor.ts:691-727 | The loop over the entities of one parent type extends the run with that type's calls. |
| Lifecycle.RemoveFromParent | src/editors/ConfigEditor.ts:693-725 | The two property checks of one parent extend the run with that parent's calls. |
| Lifecycle.ThrowSticks | src/editors/ConfigEditor.ts:702-723 | Once a call throws, every longer run throws. |
| Lifecycle.DeletionTarget | src/editors/ConfigEditor.ts:254-258 | A sequence of a known scenario is found exactly when the scenario's section declares it, and is then its entry among that scenario's sequences. Any other entity is found exactly when the document has its `[type.name]` section, which is then the target. |
| Lifecycle.DeleteConfigurationNode | src/editors/ConfigEditor.ts:233-284 | Without confirmation the result is undefined and nothing is sent. A missing symbol gives `false`. Otherwise the delete of the section, or of a sequence from its line start, is sent followed by the reference removals, and the host's answer is returned. A throw rejects. The view is refreshed on success or when asked to on failure. |
| Lifecycle.DuplicateNode | src/editors/ConfigEditor.ts:747-763 | A missing entity or a dismissed prompt gives `false` and no edit. Otherwise one section copying the entity's properties is appended under the new name. |
| Lifecycle.SequenceTasks | src/editors/ConfigEditor.ts:782-787 | Adding appends the task to the references reduced to entity names. Removing keeps exactly the other names, each as often as before and in order (an order-keeping filter). |
| Lifecycle.FilterOutConcat | src/editors/ConfigEditor.ts:787 | The filter keeps order: it distributes over concatenation. |
| Lifecycle.AddRemoveTaskInSequence | src/editors/ConfigEditor.ts:773-790 | A missing sequence gives `false`. Otherwise one replace of the task list is sent and the result is undefined. |
| Lifecycle.AddThenRemoveTask | src/editors/ConfigEditor.ts:782-789 | Adding a task not in the sequence and then removing it leaves the sequence as it was, in its normal form. |
| Lifecycle.FoldStep | src/editors/ConfigEditor.ts:626-635 | A step changes the candidate only on a case-insensitive match, and then bumps it. |
| Lifecycle.BumpKeepsStem | src/editors/ConfigEditor.ts:627-633 | Bumping keeps the name up to any of its `_`: the new number replaces the digits after the last one, or `_1` is appended. |
| Lifecycle.BumpChanges | src/editors/ConfigEditor.ts:627-633 | A bumped candidate never equals the old one, even ignoring case (with the suffix as an unbounded integer). |
| Lifecycle.Fold | src/editors/ConfigEditor.ts:626-636 | A proposal that no name matches, ignoring case, comes out of the fold unchanged. |
| Lifecycle.FoldKeepsStem | src/editors/ConfigEditor.ts:626-636 | The fold keeps the initial proposal up to any of its `_`. |
| Lifecycle.DefaultName | src/editors/ConfigEditor.ts:623-636 | The proposal is the type followed by `_` and more. |
| Lifecycle.Candidates | src/editors/ConfigEditor.ts:623-625 | The fold sees exactly the siblings whose lower-cased name starts with the lower-cased type. |
| Lifecycle.CandidatesAppend | src/editors/ConfigEditor.ts:623-625 | The candidates keep document order: they distribute over concatenation. |
| Lifecycle.DefaultNameAlone | src/editors/ConfigEditor.ts:623-636 | Without a sibling of the type, the proposal is `<Type>_1`. |
| Lifecycle.SuffixBump | src/editors/ConfigEditor.ts:628-630 | A trailing `_<n>` is bumped to `_<n+1>` (with `n` unbounded). |
| Lifecycle.BumpSmall | src/editors/ConfigEditor.ts:628-630 | `<Type>_1` is bumped to `<Type>_2`, and `<Type>_2` to `<Type>_3`. |
| Lifecycle.DefaultNameCounts | src/editors/ConfigEditor.ts:623-636 | Siblings `<Type>_1` then `<Type>_2` make the proposal `<Type>_3`. |
| Lifecycle.DefaultNameAvoidsLast | src/editors/ConfigEditor.ts:626-636 | The proposal never equals the last candidate sibling, ignoring case. |
| Lifecycle.DefaultNameCollides | src/editors/ConfigEditor.ts:623-636 | Siblings `<Type>_2` then `<Type>_1` make the proposal `<Type>_2`, which is taken. |
| Lifecycle.FreshName | src/editors/ConfigEditor.ts:623-636 | One past the largest number any sibling carries collides with no sibling, ignoring case. |
| Editor.EntryOf | src/editors/ConfigEditor.ts:219-222 | The entry of a perspective is the stored one, or `{}` when missing. |
| Editor.PositionsEntry | src/editors/ConfigEditor.ts:214-217 | The entry `getPositionsCache` leaves is the stored one, or `{ positions: {} }` for a new perspective. |
| Editor.AddMissing | src/editors/ConfigEditor.ts:861 | The old ids stay, in front. The result holds exactly the old and given ids, and no appended id repeats an earlier one. |
| Editor.AddMissingPresent | src/editors/ConfigEditor.ts:861-862 | Ids that are all present already add nothing. |
| Editor.PushMissing | src/editors/ConfigEditor.ts:859-861 | The push loop computes the ids added. |
| Editor.UpdateExtras | src/editors/ConfigEditor.ts:852-873 | A non-empty argument leaves a stored list that holds each of its ids, and no id stored before is lost. |
| Editor.UpdateWritesIffChanged | src/editors/ConfigEditor.ts:852-873 | The update writes the workspace state exactly when the stored value changes. |
| Editor.UpdateExtrasIdempotent | src/editors/ConfigEditor.ts:852-873 | Repeating an update changes nothing. |
| Editor.IndexIn | src/editors/ConfigEditor.ts:885 | `indexOf` is -1 exactly when the id is absent, and otherwise the first position of the id. |
| Editor.RemoveFirst | src/editors/ConfigEditor.ts:885-886 | The list shrinks by one exactly when the id occurs. |
| Editor.RemoveFirstCount | src/editors/ConfigEditor.ts:885-886 | Exactly one occurrence of the id is taken away, if there is one. |
| Editor.RemoveFirstEachCount | src/editors/ConfigEditor.ts:884-887 | The removal takes away exactly the given ids, as many times as each is given and present (multiset difference). |
| Editor.SpliceEach | src/editors/ConfigEditor.ts:882-887 | The splice loop computes that removal. |
| Editor.RemoveExtras | src/editors/ConfigEditor.ts:875-896 | Only a stored list changes. A changed list holds fewer ids, each of them stored before, or becomes `undefined`. |
| Editor.RemoveFirstEachWithin | src/editors/ConfigEditor.ts:884-887 | The ids left by the removal were there before. |
| Editor.RemoveWritesIffChanged | src/editors/ConfigEditor.ts:875-896 | The removal writes the workspace state exactly when the stored value changes. |
| Editor.UpdateThenRemove | src/editors/ConfigEditor.ts:852-896 | Removing an id that an update just added gives the previous value back, including `undefined`. |
| Editor.RemoveLastAdded | src/editors/ConfigEditor.ts:884-887 | An id appended last, and not present before, is the one the removal takes. |
| Editor.Overwrite | src/editors/ConfigEditor.ts:831-835 | Every old key and every given key is in the result. |
| Editor.OverwriteKeeps | src/editors/ConfigEditor.ts:831-835 | A key no entry names keeps its position, and no other key appears. |
| Editor.OverwriteLast | src/editors/ConfigEditor.ts:831-835 | A key takes the value of the last entry naming it. |
| Editor.Remap | src/editors/ConfigEditor.ts:463-467 | The old id's panels move to the new id and the old id is gone. A registry without the old id is unchanged, and every other id is untouched. |
| Editor.RemapAll | src/editors/ConfigEditor.ts:460-469 | Every document's registry is remapped. |
| Editor.RemapBack | src/editors/ConfigEditor.ts:464-466 | Renaming back restores the registry when the new id was free. |
| Editor.RemapSameNameDrops | src/editors/ConfigEditor.ts:465-466 | Renaming an entity to its own name drops its panels. |
| Editor.CheckChildType | src/editors/ConfigEditor.ts:295-309 | The queue loop gives the breadth-first search's answer from the perspective's type. |
| Editor.Search | src/editors/ConfigEditor.ts:297-305 | An answer takes at least one dequeue, and a yes found a non-empty type with the node type among its child types. |
| Editor.SearchSound | src/editors/ConfigEditor.ts:297-305 | A successful search found a chain of child types from the root to a type that has the node type as a child. |
| Editor.CheckSound | src/editors/ConfigEditor.ts:295-309 | The check says yes only when the node type is a descendant child type of the perspective's type. |
| Editor.CheckComplete | src/editors/ConfigEditor.ts:295-309 | When the node type is a descendant child type of the perspective's (non-empty) type and no child type is empty, the check never says no. |
| Editor.SearchComplete | src/editors/ConfigEditor.ts:297-305 | A queue without empty types that holds the start of a chain to a parent of the node type never leads the search to no. |
| Editor.SearchFuel | src/editors/ConfigEditor.ts:297-305 | More fuel does not change a settled answer. |
| Editor.SearchCycle | src/editors/ConfigEditor.ts:297-305 | A type that is its own only child keeps the search going for any fuel, because the search has no visited set. |
| Editor.ChildCalls | src/editors/ConfigEditor.ts:813-815 | One clear call is made per non-empty child type, from the entity. |
| Editor.ClearChildren | src/editors/ConfigEditor.ts:812-815 | The loop produces the run of those calls on a fresh edit list. |
| Editor.ChildWithoutPropertyThrows | src/editors/ConfigEditor.ts:813-815 | A child type the entity has no property for makes the removal throw. |
| Editor.ConfigEditor.constructor | src/editors/ConfigEditor.ts:130-132 | The provider starts from the stored cache and an empty panel registry. |
| Editor.ConfigEditor.ClearCache | src/editors/ConfigEditor.ts:209-212 | The cache is emptied and the empty cache written. |
| Editor.ConfigEditor.GetCache | src/editors/ConfigEditor.ts:219-222 | It returns the perspective's entry and stores it, created empty when missing. |
| Editor.ConfigEditor.GetPositionsCache | src/editors/ConfigEditor.ts:214-217 | It returns the stored positions, or `{}`, and creates a missing entry with empty positions. |
| Editor.ConfigEditor.SetPositions | src/editors/ConfigEditor.ts:826-842 | The given entries overwrite theirs and the others stay. The cache is written exactly when at least one entry was given. |
| Editor.ConfigEditor.SetExtraEntitiesInCache | src/editors/ConfigEditor.ts:844-850 | The value is replaced, and written only when it differs. |
| Editor.ConfigEditor.UpdateExtraEntitiesInCache | src/editors/ConfigEditor.ts:852-873 | `""` changes nothing. No stored value stores the argument verbatim. Otherwise only missing ids are appended and the value is written only when the list grew. |
| Editor.ConfigEditor.RemoveExtraEntitiesInCache | src/editors/ConfigEditor.ts:875-896 | The first occurrence of each given id is removed. The value becomes `undefined` once empty and is written only when the list shrank. |
| Editor.ConfigEditor.UpdateElement | src/editors/ConfigEditor.ts:460-469 | Every document's registry is remapped from `type.old` to `type.new`. |
| Editor.ConfigEditor.CreateNode | src/editors/ConfigEditor.ts:661-678 | When the type is a child type of the perspective and its entity exists, the new entity is linked under that entity. Otherwise it is added to the perspective's extra entities. Its section is appended when missing, and the host's answer is returned. |
| Editor.ConfigEditor.RemoveNodeFromPerspective | src/editors/ConfigEditor.ts:799-824 | A missing entity gives `false`. The edits clear every child list and then remove every reference, and a throw rejects. On success the entity leaves the extra entities; otherwise the view is refreshed. |
| Drop.Parsed | src/providers/DocumentDropEditProvider.ts:48-55 | There are no more uris than lines. |
| Drop.ParsedFromLines | src/providers/DocumentDropEditProvider.ts:49-55 | Every uri is the parse of a non-empty line. |
| Drop.ParsedAppend | src/providers/DocumentDropEditProvider.ts:49-55 | The uris keep the lines' order: parsing distributes over concatenation. |
| Drop.ParsedAll | src/providers/DocumentDropEditProvider.ts:49-55 | When every line parses, no non-empty line is lost. |
| Drop.CollectUris | src/providers/DocumentDropEditProvider.ts:48-55 | The loop keeps the uris of the non-empty parsable lines, in order. |
| Drop.InsertText | src/providers/DocumentDropEditProvider.ts:65-81 | Text is inserted exactly when all of these hold: the line sets a droppable property, `startPos < character <= endPos`, and the last non-blank character before the cursor is a quote, `[` or `,`. The text is the quoted section name, prefixed by `", "` after a quote and suffixed by `", "` after a comma. |
| Drop.InsertionInsideList | src/providers/DocumentDropEditProvider.ts:68-70 | An insertion's cursor lies inside the line and after the `[` of its list. |
| Drop.Indented | src/providers/DocumentDropEditProvider.ts:87 | Each non-empty line is prefixed by a tab and empty lines stay empty. |
| Drop.BlockLines | src/providers/DocumentDropEditProvider.ts:86-87 | The block is an empty line, the section header, then the entity's lines indented. |
| Drop.BlockRoundTrip | src/providers/DocumentDropEditProvider.ts:86-88 | The joined block splits back into its lines, and removing the indentation gives the entity's text back. |
| Drop.ProvideDropEdits | src/providers/DocumentDropEditProvider.ts:30-92 | The result is `undefined` when drop is disabled, the transfer is missing or cancelled, the uri list is empty, or no uri parses. Otherwise the insert text is computed for the same document, and the block for another document. |
| Schema.PropTypeOf | src/schema/validation.ts:120-121 | `"array"` gives array and `"object"` gives object. Anything else gives string. A `null` property schema throws. |
| Schema.Kept | src/schema/validation.ts:123-124 | Exactly the additional keys that are non-empty and not `if`, `then` or `else` are kept. |
| Schema.KeepKeys | src/schema/validation.ts:123-124 | The filter computes them. |
| Schema.AddKeysFails | src/schema/validation.ts:118-122 | Pushing keys fails exactly on a `null` property schema. |
| Schema.AddKeysMeaning | src/schema/validation.ts:118-122 | The keys are pushed in order after the existing ones, each with a recorded kind. A key's kind is that of its last entry, and a key not pushed keeps its kind. |
| Schema.PushKeys | src/schema/validation.ts:118-122 | The loop computes the push. |
| Schema.TablesOfFails | src/schema/validation.ts:118-128 | A type's tables fail exactly on a `null` property schema among its own or its kept additional properties. |
| Schema.TablesOfMeaning | src/schema/validation.ts:118-128 | The listed properties are the own keys, then the kept additional keys. Each has a kind. A kept additional key takes the kind of its last kept entry, over a same-named own key. An own key not among the kept additional keys takes the kind of its last own entry (array, object or string by its `type`). |
| Schema.ScanNodeProperties | src/schema/validation.ts:116-128 | The loops of one section type compute these tables. |
| Schema.BuildEachFails | src/schema/validation.ts:115-129 | Building fails exactly when one section type's scan fails. |
| Schema.BuildEachMeaning | src/schema/validation.ts:115-129 | Every section type, and only those, gets a table, the one of its last schema entry. |
| Schema.TruthyOnly | src/schema/validation.ts:100 | Exactly the truthy values are kept, none added. |
| Schema.EnumStep | src/schema/validation.ts:98-100 | A property entry changes the enumerations only when its `enum` is truthy, and then records its truthy values. |
| Schema.AddEnumsKeys | src/schema/validation.ts:95-102 | The key list stays free of duplicates and lists exactly the table's keys. Every new or changed key comes from an entry with that enumeration. |
| Schema.AddEnumsFrom | src/schema/validation.ts:97-101 | A new or changed enumeration comes from an entry of that property. |
| Schema.AddPropEnumsOf | src/schema/validation.ts:95-102 | A falsy argument records nothing. |
| Schema.PickDefault | src/schema/validation.ts:215-217 | Only a truthy `default` is recorded, with its value. |
| Schema.PickReference | src/schema/validation.ts:192-194 | A property is recorded exactly when `taipy_function` or `taipy_class` is truthy. The value is `true` exactly when `taipy_function` is. |
| Schema.RecordAllMeaning | src/schema/validation.ts:214-225 | Filling fails exactly when an entry throws. The table keeps what was there plus the kept entries, every new or changed value comes from a kept entry, and the last kept entry of a property wins. |
| Schema.RecordLoop | src/schema/validation.ts:214-219 | The loop computes the fill. |
| Schema.NodeRecordMeaning | src/schema/validation.ts:212-226 | A section type's table holds exactly the kept properties, own or additional, each with a value picked from one of its entries. The value is that of the last kept additional entry, or, when no additional entry of that name is kept, that of the last kept own entry. |
| Schema.ScanNodeRecord | src/schema/validation.ts:212-226 | The two loops of one section type compute its table. |
| Schema.BuildTable | src/schema/validation.ts:189-203 | The outer loop builds the per-type tables. |
| Schema.FlaggedKeysMeaning | src/schema/validation.ts:154-156 | The keys listed are exactly those with a truthy flag, and reading the flag of a `null` schema throws. |
| Schema.FlagLoop | src/schema/validation.ts:154-156 | The filter-map computes them. |
| Schema.SymbolNodeMeaning | src/schema/validation.ts:152-163 | One section type flags exactly the properties flagged among its own or its additional properties. |
| Schema.ConcatEachMeaning | src/schema/validation.ts:152-163 | The concatenation lists a name exactly when some section type's scan lists it. |
| Schema.SymbolLoop | src/schema/validation.ts:152-163 | The loop over the section types computes the concatenation. |
| Schema.ScanSymbolNode | src/schema/validation.ts:153-162 | The two pushes of one section type compute its flagged names. |
| Schema.Tables.constructor | src/schema/validation.ts:79-208 | All tables start empty and the Python symbols unknown. |
| Schema.Tables.GetProperties | src/schema/validation.ts:112-132 | Filled tables are returned from without a scan. Empty tables are built from the schema, so a schema yielding no section types is read again on every call. A type's property list, or `[]` for an unknown type, is returned. |
| Schema.Tables.BuildPropertyTables | src/schema/validation.ts:115-129 | The outer loop fills the tables of every section type, or fails. |
| Schema.Tables.GetPropertyType | src/schema/validation.ts:133-138 | The recorded kind is returned, or string when there is none or the type lists no properties. With empty tables the schema is read once, the call throws exactly when building throws, and otherwise the tables become the built ones. |
| Schema.Tables.GetPropertyTypes | src/schema/validation.ts:139-144 | A type's kinds are returned, or `{}` when it lists no properties. With empty tables the schema is read once, the call throws exactly when building throws, and otherwise the tables become the built ones. |
| Schema.Tables.AddPropEnums | src/schema/validation.ts:95-102 | The enumerations become those the properties record, and the key list stays duplicate-free. |
| Schema.Tables.GetEnumProps | src/schema/validation.ts:82-93 | Recorded keys are returned without a scan. Otherwise every section type's own and additional properties are scanned, and the keys returned in first-recorded order. |
| Schema.Tables.AddEnumNodes | src/schema/validation.ts:88-91 | The loop over the section types computes the enumerations. |
| Schema.Tables.AddEnumNode | src/schema/validation.ts:89-90 | One section type adds its own, then its additional, enumerations. |
| Schema.Tables.GetDefaultValues | src/schema/validation.ts:209-229 | The table is built only while empty, and a type's defaults, or `{}`, are returned. |
| Schema.Tables.GetPythonReferences | src/schema/validation.ts:186-206 | The table is built only while empty and returned. |
| Schema.Tables.CalculatePythonSymbols | src/schema/validation.ts:148-181 | The function names are computed once, then the class names once. A list already known is kept. The call succeeds exactly when each list is known or its scan succeeds, so both lists are known after a clean run; a throwing function scan leaves the classes untouched. A list whose scan throws is left as `[]`, so it is not scanned again. |
| Schema.Tables.ScanSymbols | src/schema/validation.ts:151-163 | One scan computes the flagged names of every section type and leaves the other list alone. |
| Schema.Tables.IsFunction | src/schema/validation.ts:182 | The answer is `undefined` until the functions are known, and afterwards whether the property is among them. |
| Schema.Tables.IsClass | src/schema/validation.ts:183 | The answer is `undefined` until the classes are known, and afterwards whether the property is among them. |

## Left out

- I/O and host plumbing are outside the model:
  - editor registration, webview messages and HTML;
  - `showWarningMessage` and `showInputBox` (the answers are inputs);
  - `workspace.applyEdit` (its answer is an input);
  - `refreshSymbols` and `updateWebview` (only whether the view is refreshed is recorded);
  - `saveAsPng`.
- TOML serialisation (`stringify`, `addElementAtEnd`) is abstract: an edit carries the list or the content it writes, not its text.
- The symbol index (`getSymbol`, `getSymbolArrayValue`, `getNodeFromSymbol`) is taken as its result: entities with their array properties. Text ranges are named by the symbol they belong to. `getDescendantProperties`, `getChildTypes`, `getParentTypes`, `getSectionName`, `getUnsuffixedName`, `isRoot`, `Uri.parse`, `isUriEqual`, `getPerspectiveFromUri`, `getNodeFromUri` and `getPropertyToDropType` are function parameters.
- Schema loading (`getValidationSchema`, `getValidationFunction`) is file and package I/O, a polling wait and Ajv compilation. The schema is a parameter.
- JSON numbers are integers, and floating point in the schema is out of scope (see `Lifecycle.Bump` for the one double the name fold computes). JSON objects are lists of distinct keys, and the first entry of a key is the one read. Prototype properties, `Object.keys` placing integer-like keys first, and `toLowerCase` outside ASCII are not modelled.
- Async ordering is not modelled: each command runs to completion with its awaited host calls answered by inputs.
- `_properties` and `_propertyTypes` are one field, `Schema.Tables.propertyTables`, because the source fills both for the same types at the same time.
- Nodes.ApplyPerspective: the merges are stated one at a time (`MergeStep`): merged entities are present, nothing is lost, and nothing changes when an extra is not merged. Which other nodes a merge brings, and which links it appends after the traversal's, are stated only as "within the model".
- Nodes.ApplyPerspective: when the links field is not an array, `applyNode` hands back the caller's own model, and `delete res.nodes[nodeType]` (webviews/src/utils/nodes.ts:20-22, 76-77) removes the root's bucket from the caller's model in place. The model returns a modified copy and leaves the argument unchanged, so this aliasing is not captured.
- Nodes.Traverse: the closure (`Closed`) is proved for clean ends only (`Clean`): non-empty types and names, types without `.`. With a `.` in a type, two ends can share a key `${type}.${name}` and the second is never visited. With an empty type or name, its queued visit ends the walk early.
- Schema.Tables.GetProperties: after a thrown error the partly filled tables are not specified.
- Schema.Tables.GetPropertyType: after a thrown error the partly filled tables are not specified, as for `getProperties`.
- Schema.Tables.GetPropertyTypes: after a thrown error the partly filled tables are not specified, as for `getProperties`.
- Schema.Tables.GetEnumProps: after a thrown error the partly filled enumerations are not specified.
- Schema.Tables.GetDefaultValues: after a thrown error the partly filled table is not specified.
- Schema.Tables.GetPythonReferences: after a thrown error the partly filled table is not specified.
- Schema.Tables.CalculatePythonSymbols: a scan that throws leaves the list `[]`. The source leaves it holding the names pushed before the throw.
- Lifecycle.DeletionTarget: an `extras` argument without a `SCENARIO` key makes the source look a sequence up under the scenario name `undefined` (src/editors/ConfigEditor.ts:254-258). `getSymbol` is not part of this model, so such a call is modelled as one without extras, which looks up the `[SEQUENCE.name]` section.
- Editor.CheckChildType: the search runs on a fuel bound, and an answer of `None` means the fuel ran out. More fuel never changes a settled answer (`Editor.SearchFuel`), and a chain to a parent of the node type rules out the answer no (`Editor.CheckComplete`). No lemma bounds the fuel a search needs, even on an acyclic relation. The source loops forever on a cycle (`Editor.SearchCycle`).
- Lifecycle.Bump: the numeric suffix is parsed and incremented as an unbounded integer. The source's `parseInt(...) + 1` is a double, so from 2^53 up the increment can round away (`TASK_9007199254740992` bumps to itself) and from 10^21 up the number prints in exponent form (`_1e+21`). The model agrees with the source for suffixes below 2^53.
- Lifecycle.BumpChanges: holds of the source only for numeric suffixes below 2^53, for the reason given for `Lifecycle.Bump`.
- Lifecycle.SuffixBump: holds of the source only for `n` below 2^53, for the reason given for `Lifecycle.Bump`.
- Drop.InsertText: positions and offsets (`position.character`, `indexOf`, `lastIndexOf`, `substring`, `.at(-1)`) count Unicode scalar values, where the host counts UTF-16 code units. The model agrees with the source only on lines without characters outside the Basic Multilingual Plane before the cursor.
- Drop.ProvideDropEdits: inherits the code-point offsets of `Drop.InsertText`.
- `addNodeToActiveDiagram`'s search for the active panel and its `postMessage` are not modelled. Only its child-type check is.
- `createNewElement`, `doCreateElement` and `getNodeName`'s edits for a new sequence are not modelled, because they consist of TOML content building and prompts.
- `updateWebview`, `showSequenceInScenario`, `refreshVisibleContext`, `webviews/src/utils/smallModelChanges.ts`, `src/providers/PythonLinkProvider.ts`, `ConfigDetails` and `src/utils.ts` are UI or workspace glue and are not part of this model.

## Findings

| source | as written | input that shows it | evidently intended | confidence | as-written member | corrected member |
|---|---|---|---|---|---|---|
| webviews/src/utils/nodes.ts:55-58 | `foundLinks.sort()` without a comparator orders indices by their decimal text, so the reversed order is not descending | a pool of 11 links where the expanded node takes positions 2 and 10: 10 sorts before 2, 2 is spliced first, and the second splice at 10 is past the end, so the link taken at 10 stays in the pool and can be emitted again | remove exactly the links taken (a numeric descending sort) | not executed | Nodes.AsWrittenKeepsTakenLink | Nodes.ScanPool |
| src/editors/ConfigEditor.ts:623-636 | the default name is a single fold over the siblings in document order, bumping only on equality with the current candidate | siblings `TASK_2` then `TASK_1`: the candidate `TASK_1` does not match `TASK_2`, then matches `TASK_1` and becomes `TASK_2`, which is taken | a proposal that collides with no sibling | not executed | Lifecycle.DefaultNameCollides | Lifecycle.FreshName |
