# MindFlow core, modelled in Dafny

MindFlow is a mind-mapping workspace with five modes: tasks, brain dump, planner, goals and
knowledge. Each mode keeps its own list of nodes, a forest linked by `parentId`. A single store
holds these five forests, the settings and a list of recently touched node ids. The store also
holds the UI state: the active mode, the selected and edited node, the search query and the
tasks-mode filter. Every panel reads and changes the store.

This project models:

- the store, as a class whose methods change its fields;
- the helpers of `lib/utils.ts`;
- the views and actions of the canvas, the sidebar and the four mode panels.

## Modules

- `Types`: the node record, the five-forest aggregate `MindFlowData` and the partial records that
  updates are written with.
  - `NodePatch` stands for `Partial<MindNode>`; `FilterPatch` for `Partial<FilterState>`.
  - A node's `label` is called `caption`, because `label` is a Dafny keyword.
- `Forest`: lookups by id and the child lists.
  - `Find` is the first match; `MapGet` is what a `Map` built from the list returns, the last
    match.
  - `Locate` resolves an id across the modes in the fixed order tasks, braindump, planner, goals,
    knowledge.
  - `DescIds` / `Cascade` is the descendant walk of `deleteNode`.
  - `UpdateForest` is the map of `updateNode`; `NewNode` is the node `addNode` builds;
    `PushRecent` is the recent-list update.
  - The forest invariant `ParentsPrecede` says that every node's parent id occurs only earlier in
    the list. It holds for the fixtures and for everything `addNode` appends. Under it the store's
    forests are acyclic and the recursive walks finish.
- `Store`: `MindFlowStore`, whose fields are the store's state; each action is a method.
- `Utils`:
  - `isOverdue` and `formatDeadline`, with the clock as the parameter `now`;
  - `getProgressPercent` and `getCompletionPercent`, with JavaScript's `Math.round`;
  - `autoOrganize`, a loop with the keyword classifier inside it;
  - the channel parsing of `hexToRgba`.
- `Canvas`: the tasks-mode filter, the edge list with its stroke and selection styling, and the hiding
  of nodes under a collapsed ancestor.
- `TaskList`: which nodes are tasks, the sorted order, the header and badge counts, and the status
  toggle.
- `Knowledge`: tag adding and removing, and the node the panel works on.
- `Planner`: the completion counts, the total time and its display, and the per-slot counts.
- `Sidebar`: the tasks-mode statistics, the recent-node list, quick add, and a click on a recent item.
- `BrainDump`:
  - turning pasted text into top-level nodes, one `addNode` per line;
  - the dumped-node count;
  - auto-grouping: recolour by category, bucket by colour, then one `updateNode` per node.
- `Text`, `Seqs`, `Wrappers`: JavaScript string behaviour (`trim`, ASCII `toLowerCase`,
  `includes`, `split('\n')`, decimal printing) and sequence helpers.

## Modelling notes

Things the system is given by the outside world become parameters:

- the clock: `now` in milliseconds, and `stamp`, an opaque ISO time stamp;
- generated ids: `freshId`, `ids`;
- the random palette pick: `pick`;
- random and trigonometric positions: `positions`, and the layout function `place`.

A deadline is its stored string together with the instant it parses to. `None` stands for an
Invalid Date.

Points where the model follows the code rather than a natural reading of it:

- The tasks-mode filter never looks at a node's status. A done task passes the overdue filter like any
  other (`Canvas.FilterIgnoresStatus`).
- An edge's stroke is decided in this order: the search highlight, then overdue and not done,
  then the node's colour. The selection changes only width, opacity and glow.
- Edges look parents up in a `Map` built from the whole list (the last node with an id wins).
  Everything else uses `find` (the first node wins). The two agree when ids are unique
  (`Forest.MapGetIsFind`).
- `deleteNode` has no guard for roots: deleting a root removes its whole tree.
- The planner ring uses `getCompletionPercent`, which leaves out roots. The `completed/total`
  counts beside it include roots (`Planner.RingIgnoresRoots`).
- A negative total time is shown with a floored hour and a truncated minute. `-30` reads
  `-1h -30m` (`Planner.NegativeTotalDisplay`).
- The recent list of the sidebar takes the first eight recent ids and shows those that still
  resolve. An id that no longer resolves is dropped, not replaced by a later one.

## Model

| member | source | states |
|---|---|---|
| `Types.ApplyPatch` | lib/store.ts:176 | The spread node carries every field the patch sets, with the patch's value, and keeps the node's value for every field the patch leaves unset. |
| `Types.ApplyPatchDetermined` | lib/store.ts:176 | Those two halves fix the merged node: any node that carries the patch's fields and keeps the rest is the spread. |
| `Types.ApplyPatchNoop` | lib/store.ts:176 | A spread leaves a node unchanged exactly when the node already agrees with the patch. |
| `Types.ApplyPatchIdempotent` | lib/store.ts:176 | Spreading the same patch twice is spreading it once. |
| `Types.ColorPositionPatch` | components/modes/BrainDumpPanel.tsx:48-51 | The colour-and-position update never sets an id or a parent. |
| `Types.MindFlowData.WithForest` | lib/store.ts:157-160 | Replacing one mode's forest replaces just that forest; the other four, the settings, the recent list and the version are kept. |
| `Types.WithForestTwice` | lib/store.ts:157-160 | Two writes to the same mode's forest leave only the second. |
| `Types.WithForestSame` | lib/store.ts:157-160 | Writing back a mode's own forest changes nothing. |
| `Types.ApplyFilterPatch` | lib/store.ts:218-219 | Each filter field the partial sets takes the new value; each field it leaves out is kept. |
| `Types.DefaultColorsNonEmpty` | lib/types.ts:68-79 | The palette has ten colours, none empty, so a palette colour is always truthy. |
| `Forest.FirstIndex` | lib/store.ts:247 | The index `find` stops at: the first node with the id, or none when no node has it. |
| `Forest.Find` | lib/store.ts:247 | `nodes.find(n => n.id === id)`: absent exactly when no node has the id; otherwise the node at some position with that id, no earlier node having it. |
| `Forest.LastIndex` | components/mindmap/MindMapCanvas.tsx:155 | The index a `Map` built from the list keeps for an id: the last node with it. |
| `Forest.MapGet` | components/mindmap/MindMapCanvas.tsx:155-159 | `nodeMap.get(id)`: absent exactly when no node has the id; otherwise the node at some position with that id, no later node having it. |
| `Forest.FindMapGetDiffer` | components/mindmap/MindMapCanvas.tsx:155-159 | With two nodes sharing an id, `find` returns the first and the map the second. |
| `Forest.MapGetIsFind` | components/mindmap/MindMapCanvas.tsx:155-159 | With unique ids, the id map and `find` return the same node. |
| `Forest.Children` | lib/store.ts:253 | The children of a parent: every node with that `parentId`, and only those, in list order. |
| `Forest.Locate` | lib/store.ts:244-251 | The first mode, in the given order, whose forest holds the id, together with the first node there; absent exactly when no forest holds it. |
| `Forest.LocateShift` | lib/store.ts:246-249 | A mode whose forest lacks the id does not change where the scan over the remaining modes lands. |
| `Forest.ParentsPrecedeCons` | lib/store.ts:159 | The forest invariant on a list with one more node in front: that node fits and the rest has the invariant. |
| `Forest.ParentsPrecedeFilter` | lib/store.ts:195 | Dropping nodes from a forest keeps the invariant. |
| `Forest.ParentsPrecedeAppend` | lib/store.ts:159 | Appending a node whose id no node names as parent keeps the invariant. |
| `Forest.DescIds` | lib/store.ts:185-188 | `getAllDescIds(id)`: when the walk finishes, its list starts with the id itself. |
| `Forest.DescIdsClosed` | lib/store.ts:185-188 | The ids the walk collects include every child of every collected id. |
| `Forest.ElemsAppend` | lib/store.ts:187 | The ids of two concatenated lists are the ids of the first and of the second. |
| `Forest.DescListClosed` | lib/store.ts:187 | The `flatMap` over the children collects each child's id and is closed under children. |
| `Forest.DescIdsLeast` | lib/store.ts:185-188 | Any id set that holds the start and is closed under children holds everything the walk collects, so it collects exactly the subtree. |
| `Forest.DescListLeast` | lib/store.ts:187 | The same least-set bound for the `flatMap` over a child list. |
| `Forest.DescIdsEnough` | lib/store.ts:185-188 | Under the forest invariant, fuel of the list's length suffices for the walk to finish. |
| `Forest.DescListEnough` | lib/store.ts:187 | The same for the walk over a child list. |
| `Forest.CascadeFinishes` | lib/store.ts:191 | Under the forest invariant, the cascade of `deleteNode` always finishes. |
| `Forest.DeleteLeaves` | lib/store.ts:190-199 | After the cascade, the start id is among the deleted ids. The result keeps the other nodes in order and holds no deleted id. No kept node names a deleted parent. The forest invariant survives. |
| `Forest.UpdateForestEffect` | lib/store.ts:169-181 | `updateNode` keeps the list's length. Nodes with another id are unchanged. Each node with the id agrees with the patch, gets the new `updatedAt`, and keeps every field the patch leaves unset. A node that already agreed changes only its time stamp. |
| `Forest.UpdateUnknownId` | lib/store.ts:175-177 | Updating an id no node has changes nothing. |
| `Forest.UpdateIdempotent` | lib/store.ts:175-177 | An update that does not rename the node, applied twice with the same stamp, equals one application. |
| `Forest.UpdateKeepsParentsPrecede` | lib/store.ts:175-177 | An update that touches neither id nor parent keeps the forest invariant. |
| `Forest.NewDefaults` | lib/store.ts:133-153 | The defaults under the overrides: the generated id, the given parent, "New Node", expanded, the stamp for both times and every optional field absent. The colour is the parent's when truthy, else the palette pick. The position is the parent's plus 240 across for a child, plus 40 down per existing sibling. |
| `Forest.NewNode` | lib/store.ts:131-154 | The node `addNode` builds. It takes the overrides wherever they are set, else the defaults: the generated id, the given parent, "New Node", expanded, and the stamp for both times. The colour is the parent's when truthy, else the palette pick. The position is the parent's plus 240 across for a child, plus 40 down per existing sibling. Each of the twelve optional fields, among them `isRoot`, is absent unless the overrides set it, so a node built without an `isRoot` override is no root. |
| `Forest.NewNodeColorSource` | lib/store.ts:136 | Without an override, the new colour is a palette colour or the colour of a node with the parent's id. |
| `Forest.AddKeepsParentsPrecede` | lib/store.ts:141-159 | Appending the new node, with a fresh id that is not its own parent, keeps the forest invariant. |
| `Forest.PushRecentShape` | lib/store.ts:234-240 | The new recent list starts with the id and holds ten ids at most. The rest is the old list without the id, in order, cut to nine. |
| `Forest.PushRecentNoDup` | lib/store.ts:238 | A duplicate-free recent list stays duplicate-free. |
| `Forest.PushRecentIdempotent` | lib/store.ts:238 | Touching the same id twice is touching it once. |
| `Store.MindFlowStore.constructor` | lib/store.ts:120-127 | The initial state: the given data, tasks mode, nothing selected or edited, empty search, all filters off. |
| `Store.MindFlowStore.GetChildren` | lib/store.ts:253 | The active forest's nodes with that parent, and only those, in order. |
| `Store.MindFlowStore.SetActiveMode` | lib/store.ts:129 | Switches the mode and clears both selection and editing; nothing else changes. |
| `Store.MindFlowStore.SetSelectedNode` | lib/store.ts:202 | Sets the selection only. |
| `Store.MindFlowStore.SetEditingNode` | lib/store.ts:203 | Sets the edited node only. |
| `Store.MindFlowStore.SetSearchQuery` | lib/store.ts:204 | Sets the search query only. |
| `Store.MindFlowStore.AddNode` | lib/store.ts:131-167 | Returns the generated id. Appends the new node to the active forest, puts the id at the head of the recent list, and selects and edits the node. The rest stays. With a fresh id and no re-parenting override, acyclicity is kept. |
| `Store.MindFlowStore.UpdateNode` | lib/store.ts:169-181 | Replaces the active forest by its update; without re-parenting or renaming, acyclicity is kept. |
| `Store.MindFlowStore.DeleteNode` | lib/store.ts:183-200 | Removes the node and all its descendants from the active forest. Clears the selection only when it was this id. On an acyclic forest the cascade always completes and acyclicity is kept. |
| `Store.MindFlowStore.ToggleDarkMode` | lib/store.ts:213-216 | Flips `darkMode` and keeps the other settings and data. |
| `Store.MindFlowStore.SetFilter` | lib/store.ts:218-219 | Merges the partial filter into the current one. |
| `Store.MindFlowStore.ImportData` | lib/store.ts:232 | Replaces the data wholesale. |
| `Store.MindFlowStore.AddRecentNode` | lib/store.ts:234-240 | Replaces only the recent list, by its update for the id. |
| `Store.MindFlowStore.GetNodeById` | lib/store.ts:244-251 | The loop over the modes returns the first-mode, first-node match, and nothing exactly when no forest holds the id. |
| `Utils.OverdueStrictAndMonotone` | lib/utils.ts:9-12 | A deadline is not overdue at its own instant, is overdue one millisecond later, and stays overdue as time passes. |
| `Utils.CeilDiv` | lib/utils.ts:18 | `Math.ceil(a / b)` for positive `b`: the least integer whose multiple of `b` reaches `a`. |
| `Utils.DaysUntil` | lib/utils.ts:17-18 | The day count is the least number of whole days covering the time left. |
| `Utils.ReadFormatDays` | lib/utils.ts:20-23 | The day count can be read back from every label `formatDeadline` produces. |
| `Utils.FormatDaysInjective` | lib/utils.ts:20-23 | Different day counts never get the same label. |
| `Utils.JsRound` | lib/utils.ts:28 | `Math.round`: the integer within half of the value, halves rounding up. |
| `Utils.ProgressPercent` | lib/utils.ts:26-29 | Zero for a zero target. Otherwise at most 100, and 100 once the target is reached. Never negative for a non-negative ratio. Below 100, the rounded percentage; 100 only when the percentage rounds to at least 100. |
| `Utils.ProgressPercentExamples` | lib/utils.ts:26-29 | Over target is capped at 100; half is 50; a zero target gives 0. |
| `Utils.Percent` | lib/utils.ts:66 | A rounded share in 0..100: 0 for no items or none done, 100 for all done, otherwise within half a point of the exact percentage. |
| `Utils.CompletionPercent` | lib/utils.ts:62-67 | The rounded share of completed nodes among non-root nodes with the flag; 0 when none has it. |
| `Utils.CompletionPercentExample` | lib/utils.ts:62-67 | One of two flagged nodes done, an unflagged one ignored, gives 50. |
| `Utils.CategoryColorInjective` | lib/utils.ts:39-45 | The five category colours are distinct, so the colour tells the category. |
| `Utils.ClassifyFrom` | lib/utils.ts:51-56 | The category is the first, in order, with a keyword occurring in the label. "other" means exactly that none has one. |
| `Utils.ClassifyShift` | lib/utils.ts:51-56 | When the first category has no match, what the remaining categories pick is also what the whole list picks. |
| `Utils.ClassifyFirstMatch` | lib/utils.ts:51-56 | When category `k` matches and none before it does, the result is `k`. |
| `Utils.ClassifyIgnoresCase` | lib/utils.ts:48 | Lower-casing the label first does not change its category. |
| `Utils.ClassifyExample` | lib/utils.ts:32-58 | "Team meeting about project deadline" is work, coloured `#3b82f6`. |
| `Utils.CategoryOf` | lib/utils.ts:49-56 | The loop over the category entries with `break` finds the classifier's category. |
| `Utils.AutoOrganize` | lib/utils.ts:31-60 | The mapping loop returns the recoloured list. |
| `Utils.OrganizedSnoc` | lib/utils.ts:47-59 | Recolouring one more node appends its recoloured copy. |
| `Utils.OrganizedShape` | lib/utils.ts:47-59 | Same length. Each node is unchanged but for its colour. Every colour is one of the five category colours. |
| `Utils.OrganizedIdempotent` | lib/utils.ts:47-59 | Organizing twice is organizing once. |
| `Utils.HexDigit` | lib/utils.ts:70 | A hex digit's value is below 16. |
| `Utils.HexRun` | lib/utils.ts:70 | The end of the run of hex digits that `parseInt` reads. |
| `Utils.Slice` | lib/utils.ts:70-72 | `String.prototype.slice` with clamped ends: within bounds, it is the substring. |
| `Utils.HexValueBound` | lib/utils.ts:70-72 | A run of `n` hex digits is below `16^n`. |
| `Utils.ChannelBound` | lib/utils.ts:70-72 | A two-character slice parses, if at all, to a magnitude of at most 255. |
| `Utils.ChannelOfHexDigits` | lib/utils.ts:70-72 | A channel of two hex digits is their base-16 value. |
| `Utils.TwoDigits` | lib/utils.ts:70-72 | `parseInt` of two hex digits is their base-16 value. |
| `Utils.ToHexDigit` | lib/utils.ts:70 | The digit printed for a value reads back as that value. |
| `Utils.ToHex2` | lib/utils.ts:70-72 | Two hex digits for a channel value. |
| `Utils.ChannelsRoundTrip` | lib/utils.ts:69-74 | A colour written `#rrggbb` from three channel values parses back to them. |
| `Utils.Hex2RoundTrip` | lib/utils.ts:70 | Two printed digits parse back to the value. |
| `Text.StartFrom` | components/layout/Sidebar.tsx:26 | The first non-white-space position from a start. |
| `Text.EndFrom` | components/layout/Sidebar.tsx:26 | The end of the text without its trailing white space. |
| `Text.Trim` | components/layout/Sidebar.tsx:26 | `String.prototype.trim`: no white space at either end, no longer than the input, empty exactly when the input is all white space, and the core of the input. |
| `Text.TrimBetween` | components/layout/Sidebar.tsx:26 | The trim of a text is the stretch between its leading and trailing white space. |
| `Text.TrimIdempotent` | components/layout/Sidebar.tsx:26 | Trimming twice is trimming once. |
| `Text.Lower` | lib/utils.ts:48 | `toLowerCase` over ASCII: same length, each character lowered. |
| `Text.LowerIdempotent` | lib/utils.ts:48 | Lowering twice is lowering once. |
| `Text.NatToString` | lib/utils.ts:20 | Decimal printing: non-empty digits with no leading zero. |
| `Text.ParseNatToString` | lib/utils.ts:20 | Printed numbers read back. |
| `Text.NatToStringInjective` | lib/utils.ts:20 | Different numbers print differently. |
| `Text.SplitLines` | components/modes/BrainDumpPanel.tsx:16 | `split('\n')`: at least one piece, none holding a line break. |
| `Text.JoinSplitLines` | components/modes/BrainDumpPanel.tsx:16 | Joining the pieces with line breaks gives the text back. |
| `Text.SplitJoinLines` | components/modes/BrainDumpPanel.tsx:16 | Splitting joined break-free pieces gives the pieces back. |
| `Canvas.FilteredNodes` | components/mindmap/MindMapCanvas.tsx:137-150 | The filtered nodes are a subsequence of the active forest. |
| `Canvas.FilterInactive` | components/mindmap/MindMapCanvas.tsx:138-140 | Outside tasks mode, or with both toggles off, the filter keeps every node. |
| `Canvas.FilterRule` | components/mindmap/MindMapCanvas.tsx:142-149 | A node is kept exactly when the per-node rule passes, in tasks mode. Roots and top-level nodes are always kept. |
| `Canvas.FilterIgnoresStatus` | components/mindmap/MindMapCanvas.tsx:146-147 | The filter's verdict does not depend on a node's status. |
| `Canvas.HighlightIgnoresCase` | components/mindmap/MindMapCanvas.tsx:169 | The search highlight ignores case in the query and in the label. |
| `Canvas.EdgeFor` | components/mindmap/MindMapCanvas.tsx:158-160 | An edge exists exactly when the node names a parent that the id map holds and that is not collapsed. |
| `Canvas.EdgeStyle` | components/mindmap/MindMapCanvas.tsx:169-184 | The key is `e-` plus the id. The stroke is the highlight colour, else red when overdue and not done, else the node's colour. Width 3 and a glow exactly when selected. |
| `Canvas.SelectionOnlyRestyles` | components/mindmap/MindMapCanvas.tsx:172-184 | Selecting changes only width, opacity and glow. |
| `Canvas.RenderEdges` | components/mindmap/MindMapCanvas.tsx:153-191 | The loop returns the edges of the filtered nodes, in their order. |
| `Canvas.EdgesCount` | components/mindmap/MindMapCanvas.tsx:157-160 | There are as many edges as filtered nodes with a drawable parent. |
| `Canvas.EdgesFromFiltered` | components/mindmap/MindMapCanvas.tsx:157-188 | Every edge is the edge of some filtered node. |
| `Canvas.CheckCollapsedMeaning` | components/mindmap/MindMapCanvas.tsx:254-260 | The walk reports a collapse exactly when a node among the first `fuel` on the parent chain is collapsed. |
| `Canvas.CollapsedOnChainFound` | components/mindmap/MindMapCanvas.tsx:254-260 | A collapsed node on the reachable chain is reported. |
| `Canvas.CollapsedFoundOnChain` | components/mindmap/MindMapCanvas.tsx:254-260 | A reported collapse has a collapsed node on the chain. |
| `Canvas.CheckCollapsedFinishes` | components/mindmap/MindMapCanvas.tsx:254-260 | Under the forest invariant, the walk finishes with fuel of the list's length. |
| `Canvas.AncestorDepth` | components/mindmap/MindMapCanvas.tsx:255-258 | Under the invariant, the chain is no longer than the start node's position in the list. |
| `Canvas.VisibleNodes` | components/mindmap/MindMapCanvas.tsx:250-262 | The drawn nodes are a subsequence of the filtered ones. |
| `Canvas.ShownMeaning` | components/mindmap/MindMapCanvas.tsx:250-262 | On an acyclic forest, a node is drawn exactly when it is top-level or nothing on its parent chain is collapsed. |
| `Canvas.CollapseExample` | components/mindmap/MindMapCanvas.tsx:250-262 | Collapsing B hides its child C and leaves root, A and B drawn. |
| `Canvas.FindOnly` | components/mindmap/MindMapCanvas.tsx:255 | Looking up a node whose id is unique finds that node. |
| `TaskList.AllTasks` | components/modes/TaskListPanel.tsx:22 | The tasks are exactly the non-root nodes with a status, in order. |
| `TaskList.Rank` | components/modes/TaskListPanel.tsx:27-28 | The priority rank lies in 1..4; it is 4 exactly for urgent. |
| `TaskList.CompareIsScoreOrder` | components/modes/TaskListPanel.tsx:26-32 | The comparator is negative, zero or positive exactly as the score is higher, equal or lower. It is antisymmetric, hence a consistent order. |
| `TaskList.Insert` | components/modes/TaskListPanel.tsx:26 | One insertion step adds exactly the element. |
| `TaskList.SortTasks` | components/modes/TaskListPanel.tsx:26-32 | The sorted copy has the input's length. |
| `TaskList.InsertSorted` | components/modes/TaskListPanel.tsx:26-32 | Inserting into a sorted list keeps it sorted. |
| `TaskList.InsertBounded` | components/modes/TaskListPanel.tsx:26-32 | Inserting keeps any score bound that the list and the new task both meet. |
| `TaskList.SortTasksSorted` | components/modes/TaskListPanel.tsx:26-32 | The result is sorted by descending score. |
| `TaskList.SortTasksPermutation` | components/modes/TaskListPanel.tsx:26 | The result is a permutation of the tasks. |
| `TaskList.InsertStable` | components/modes/TaskListPanel.tsx:26 | Inserting keeps each score's run in order, with the new element last in its run. |
| `TaskList.InsertFront` | components/modes/TaskListPanel.tsx:26 | A higher-scoring element placed in front is alone in its score's run. |
| `TaskList.SortTasksStable` | components/modes/TaskListPanel.tsx:26 | Tasks of equal score keep their input order: the sort is stable, as `Array.prototype.sort` is. |
| `TaskList.InsertCount` | components/modes/TaskListPanel.tsx:34 | Counting over an insertion counts the element once more. |
| `TaskList.SortTasksCount` | components/modes/TaskListPanel.tsx:34 | Every count over the sorted list equals the count over the tasks. |
| `TaskList.OverdueFirst` | components/modes/TaskListPanel.tsx:25-32 | In the sorted list, overdue tasks precede the rest, and with the same overdue state higher priority comes first. |
| `TaskList.Summarize` | components/modes/TaskListPanel.tsx:34-35 | The header and badge numbers are the done, total and overdue-open counts over the tasks. The percentage is in 0..100, 0 when there are no tasks, and otherwise rounds the done share. |
| `TaskList.NextStatus` | components/modes/TaskListPanel.tsx:118 | The toggle gives done exactly when it was not done. |
| `TaskList.NextStatusTwice` | components/modes/TaskListPanel.tsx:118 | Two toggles restore todo and done; a task in progress ends up todo. |
| `TaskList.TogglePatch` | components/modes/TaskListPanel.tsx:118 | The toggle's update sets only the status. |
| `Knowledge.DropHash` | components/modes/KnowledgePanel.tsx:21 | One leading `#` is removed, when there is one. |
| `Knowledge.CleanTag` | components/modes/KnowledgePanel.tsx:21 | When the trimmed input starts with `#`, the cleaned tag is the trimmed input without that one `#`; otherwise it is the trimmed input. |
| `Knowledge.CleanTagExample` | components/modes/KnowledgePanel.tsx:21 | `"  #rust "` cleans to `rust`. |
| `Knowledge.CleanTagOneHash` | components/modes/KnowledgePanel.tsx:21 | Only one `#` is dropped: `##x` cleans to `#x`. |
| `Knowledge.CleanTagNoRetrim` | components/modes/KnowledgePanel.tsx:21 | The text after the `#` is not trimmed again. |
| `Knowledge.AddTag` | components/modes/KnowledgePanel.tsx:20-27 | Nothing is written exactly when the cleaned tag is empty. A present tag leaves the list as it is; a new one goes at the end. |
| `Knowledge.AddTagNoDup` | components/modes/KnowledgePanel.tsx:24 | Adding keeps a duplicate-free list duplicate-free. |
| `Knowledge.AddTagIdempotent` | components/modes/KnowledgePanel.tsx:24 | Adding the same input twice is adding it once. |
| `Knowledge.RemoveTag` | components/modes/KnowledgePanel.tsx:29-31 | Every occurrence of the tag goes; every other tag stays, in order. Exactly as many tags go as the list held copies of it, so repeated other tags keep all their copies. |
| `Knowledge.RemovedCount` | components/modes/KnowledgePanel.tsx:30 | The filter's length is the list's length less the tag's occurrences. |
| `Knowledge.RemoveTagExample` | components/modes/KnowledgePanel.tsx:30 | Removing "b" from ["a", "a", "b"] leaves ["a", "a"]. |
| `Knowledge.RemoveUndoesAdd` | components/modes/KnowledgePanel.tsx:20-31 | Removing a freshly added tag restores the list. |
| `Knowledge.PanelNode` | components/modes/KnowledgePanel.tsx:9-18 | A node is shown only in knowledge mode, only if it is not a root, and it is what the selected id resolves to. Otherwise nothing is shown. |
| `Knowledge.TagsPatch` | components/modes/KnowledgePanel.tsx:25 | The written update sets only the tags. |
| `Knowledge.HandleAddTag` | components/modes/KnowledgePanel.tsx:20-27 | An empty cleaned tag changes nothing and keeps the input. Otherwise the panel's node is updated with the new list and the input is cleared. |
| `Knowledge.HandleRemoveTag` | components/modes/KnowledgePanel.tsx:29-31 | The panel's node is updated with the list without the tag. |
| `Planner.CompletionCounts` | components/modes/PlannerPanel.tsx:17-18 | Completed is the number of positions whose node has `completed === true`, and flagged the number whose node has the flag at all. Completed never exceeds flagged, which never exceeds the node count. |
| `Planner.RingCountsRoots` | components/modes/PlannerPanel.tsx:12-18 | For every list, the flagged count beside the ring is the ring's denominator (non-root flagged nodes) plus the flagged roots. |
| `Planner.RingIgnoresRoots` | components/modes/PlannerPanel.tsx:12-18 | A completed root alone gives a 0% ring beside a 1/1 count. |
| `Planner.TotalTime` | components/modes/PlannerPanel.tsx:27 | The truthy-estimate filter does not change the sum, so the total is the sum of all estimates; non-negative estimates give a non-negative total. |
| `Planner.TruthyFilterKeepsSum` | components/modes/PlannerPanel.tsx:27 | Dropping zero and missing estimates keeps the sum. |
| `Planner.NonNegativeSum` | components/modes/PlannerPanel.tsx:27 | Non-negative estimates sum to a non-negative total. |
| `Planner.HoursMinutesSplit` | components/modes/PlannerPanel.tsx:70 | A non-negative total splits exactly into hours and 0..59 minutes. |
| `Planner.NegativeTotalDisplay` | components/modes/PlannerPanel.tsx:70 | At -30 the floored hour and the truncated minute do not add up to the total. |
| `Planner.SlotCount` | components/modes/PlannerPanel.tsx:74-77 | A slot's count is the number of positions whose node's first-found parent bears the label. It is zero exactly when there are none. |
| `Planner.SlotCountsBounded` | components/modes/PlannerPanel.tsx:20-25 | The four slot counts together never exceed the node count. |
| `Sidebar.TaskStats` | components/layout/Sidebar.tsx:33-39 | Done is at most total, which is at most the tasks forest's size. Total and done equal `TaskListPanel`'s counts. Overdue counts the non-root nodes that are overdue and not done; urgent counts the non-root urgent nodes that are not done. |
| `Sidebar.TaskCountAtMost` | components/layout/Sidebar.tsx:33-39 | A count over `TaskListPanel`'s tasks never exceeds the same count over all non-root nodes. |
| `Sidebar.OverdueAtLeastBadge` | components/layout/Sidebar.tsx:37 | The sidebar's overdue number is at least the task list's overdue badge. |
| `Sidebar.OverdueWithoutStatus` | components/layout/Sidebar.tsx:37 | An overdue node without a status counts in the sidebar (1) but not in the badge (0). |
| `Sidebar.NonRootThen` | components/layout/Sidebar.tsx:33-38 | Counting over the non-root nodes equals counting nodes that are non-root and qualify. |
| `Sidebar.NonRootDoneIsTaskDone` | components/layout/Sidebar.tsx:35-36 | The sidebar's total and done agree with `TaskListPanel`'s. |
| `Sidebar.MapFilter` | components/layout/Sidebar.tsx:42-48 | `map` then `filter(Boolean)`: no more results than inputs. |
| `Sidebar.MapFilterSources` | components/layout/Sidebar.tsx:42-48 | Each result comes from one of the inputs. |
| `Sidebar.Resolve` | components/layout/Sidebar.tsx:42-48 | No more items than ids. |
| `Sidebar.ResolveSources` | components/layout/Sidebar.tsx:42-48 | Each item is what one of the ids resolves to. |
| `Sidebar.RecentItems` | components/layout/Sidebar.tsx:42 | At most eight items. |
| `Sidebar.ItemIds` | components/layout/Sidebar.tsx:205 | The ids of the items, position by position. |
| `Sidebar.ResolveKeepsOrder` | components/layout/Sidebar.tsx:42-48 | The items' ids are exactly the resolvable ids, in order. |
| `Sidebar.ResolveFindsFirst` | components/layout/Sidebar.tsx:43-46 | Each item is the first-mode, first-node match for its own id. |
| `Sidebar.RecentItemsShape` | components/layout/Sidebar.tsx:42-48 | The list shows the resolvable ones among the first eight recent ids, in recent order. |
| `Sidebar.LabelPatch` | components/layout/Sidebar.tsx:27 | The quick-add override sets only the label. |
| `Sidebar.HandleQuickAdd` | components/layout/Sidebar.tsx:25-30 | Blank input changes nothing. Otherwise the trimmed text becomes a new top-level node, added and selected, and the input is cleared. |
| `Sidebar.QuickAdded` | components/layout/Sidebar.tsx:27 | The node a quick add creates is top-level and carries the trimmed text as its caption. |
| `Sidebar.RecentClick` | components/layout/Sidebar.tsx:208 | The click switches to the item's mode, selects it and clears editing; the data is unchanged. |
| `BrainDump.DumpedCount` | components/modes/BrainDumpPanel.tsx:13 | The count is zero exactly when every node has a parent. |
| `BrainDump.DumpLines` | components/modes/BrainDumpPanel.tsx:16 | No more dumped lines than lines in the text. |
| `BrainDump.DumpLinesClean` | components/modes/BrainDumpPanel.tsx:16-17 | Each dumped line is non-empty, break-free and its own trim. There are none exactly when every line is blank. |
| `BrainDump.DumpLinesFacts` | components/modes/BrainDumpPanel.tsx:16 | The same for any break-free lines. |
| `BrainDump.TrimmedPieceClean` | components/modes/BrainDumpPanel.tsx:16 | A trimmed line is break-free and its own trim. |
| `BrainDump.DumpLinesNone` | components/modes/BrainDumpPanel.tsx:16-17 | No line survives exactly when all are blank. |
| `BrainDump.TrimKeepsOut` | components/modes/BrainDumpPanel.tsx:16 | Trimming adds no character. |
| `BrainDump.DumpPatch` | components/modes/BrainDumpPanel.tsx:21-29 | A line's override sets exactly the label, `isDumped`, the grey colour and the position. |
| `BrainDump.DumpNode` | components/modes/BrainDumpPanel.tsx:21-29 | A dumped node is top-level: the line's label, dumped, grey, at its position, stamped. |
| `BrainDump.DumpNodeIndependent` | components/modes/BrainDumpPanel.tsx:21-29 | With colour and position given, `addNode` builds the same node whatever the forest or the palette pick. |
| `BrainDump.DumpNodes` | components/modes/BrainDumpPanel.tsx:19-31 | One node per line. |
| `BrainDump.PushAllShape` | components/modes/BrainDumpPanel.tsx:19-31 | After a dump the last line's id heads the recent list, which stays within ten. |
| `BrainDump.DumpState` | components/modes/BrainDumpPanel.tsx:19-31 | After `i` lines, the active forest is the old one plus the nodes of those lines. |
| `BrainDump.DumpNodesSnoc` | components/modes/BrainDumpPanel.tsx:19-31 | One more line appends its node. |
| `BrainDump.DumpStateStep` | components/modes/BrainDumpPanel.tsx:19-31 | One more line takes the state after `i` lines to the state after `i + 1`. |
| `BrainDump.AddDumpLine` | components/modes/BrainDumpPanel.tsx:21-29 | The `addNode` for line `i` makes exactly that step. |
| `BrainDump.DumpAll` | components/modes/BrainDumpPanel.tsx:19-31 | Each line is added in order; the last line's node ends up selected and edited. |
| `BrainDump.HandleDump` | components/modes/BrainDumpPanel.tsx:15-33 | Text without non-blank lines changes nothing. Otherwise each trimmed non-blank line is appended as an unparented node and the recent list is pushed once per line. The last line's node is selected and the text box is cleared; with nothing to add it keeps its text. |
| `BrainDump.DumpStateAll` | components/modes/BrainDumpPanel.tsx:19-31 | After every line, the forest has all the lines' nodes appended and the recent list has all their ids pushed. |
| `BrainDump.DumpNothing` | components/modes/BrainDumpPanel.tsx:17 | A dump without lines leaves the data as it was. |
| `BrainDump.DumpAddsTopLevel` | components/modes/BrainDumpPanel.tsx:13-31 | Each dumped line raises the dumped count by one. |
| `BrainDump.KeysMeaning` | components/modes/BrainDumpPanel.tsx:38-41 | The group keys have no duplicates, include every colour, and each belongs to some node. |
| `BrainDump.KeysStep` | components/modes/BrainDumpPanel.tsx:39 | One more node adds its colour as a key if it is new. |
| `BrainDump.GroupStep` | components/modes/BrainDumpPanel.tsx:39 | One more node joins its own colour's group. |
| `BrainDump.GroupsStepSeen` | components/modes/BrainDumpPanel.tsx:39 | A seen colour's group grows by the node. |
| `BrainDump.GroupsStepNew` | components/modes/BrainDumpPanel.tsx:39 | A new colour starts its own group and is recorded as the last key. |
| `BrainDump.BuildGroups` | components/modes/BrainDumpPanel.tsx:38-39 | The bucketing loop yields the keys in first-appearance order, and for each key the nodes of that colour, in order. |
| `BrainDump.HitsOnce` | components/modes/BrainDumpPanel.tsx:41 | A key of a duplicate-free list occurs once. |
| `BrainDump.HitsNone` | components/modes/BrainDumpPanel.tsx:41 | An absent key occurs never. |
| `BrainDump.GroupSizesCons` | components/modes/BrainDumpPanel.tsx:41 | The group sizes over one more node grow by its key's occurrences. |
| `BrainDump.GroupSizesEmpty` | components/modes/BrainDumpPanel.tsx:41 | No nodes, no group members. |
| `BrainDump.GroupSizesCover` | components/modes/BrainDumpPanel.tsx:41 | With distinct keys covering all colours, the group sizes add up to the node count. |
| `BrainDump.GroupsPartition` | components/modes/BrainDumpPanel.tsx:38-41 | The groups partition the organized nodes: each is in its own colour's group and no other, and the sizes add up. |
| `BrainDump.GroupMoves` | components/modes/BrainDumpPanel.tsx:46-52 | One update per group member, in order, with its colour and its place. |
| `BrainDump.MovePatch` | components/modes/BrainDumpPanel.tsx:48-51 | The update sets neither id nor parent. |
| `BrainDump.ApplyMovesSnoc` | components/modes/BrainDumpPanel.tsx:46-52 | One more update applies it to the state so far. |
| `BrainDump.ApplyMovesAppend` | components/modes/BrainDumpPanel.tsx:41-53 | The updates of two stretches apply one after the other. |
| `BrainDump.PlaceGroup` | components/modes/BrainDumpPanel.tsx:46-52 | The inner loop applies the group's updates to the active forest. |
| `BrainDump.HandleAutoOrganize` | components/modes/BrainDumpPanel.tsx:35-54 | The active forest becomes the result of the whole plan: the unparented dumped nodes, recoloured, grouped in key order, updated one by one. |
| `BrainDump.UpdateByMove` | components/modes/BrainDumpPanel.tsx:48-51 | A colour-and-position update changes only colour, position and time stamp of the nodes it names. |
| `BrainDump.ApplyMovesEffect` | components/modes/BrainDumpPanel.tsx:41-53 | After the updates, no node changes beyond colour, position and time stamp. Unnamed nodes stay as they were. A named node carries the colour of a call naming it. |
| `BrainDump.PlanFrom` | components/modes/BrainDumpPanel.tsx:41-53 | Every update comes from one of the grouped nodes. |
| `BrainDump.PlanCovers` | components/modes/BrainDumpPanel.tsx:41-53 | Every node whose colour is among the keys gets an update. |
| `BrainDump.NamedAppend` | components/modes/BrainDumpPanel.tsx:41-53 | An id named in a part of the plan is named in the whole. |
| `BrainDump.GroupNamed` | components/modes/BrainDumpPanel.tsx:46-52 | A node of a group's colour is named by that group's updates. |
| `BrainDump.OrganizePlanFrom` | components/modes/BrainDumpPanel.tsx:35-53 | Every update names an unparented dumped node, with its category colour. |
| `BrainDump.OrganizePlanCovers` | components/modes/BrainDumpPanel.tsx:35-53 | Every unparented dumped node gets an update. |
| `BrainDump.AutoOrganizeKeepsOthers` | components/modes/BrainDumpPanel.tsx:35-54 | With unique ids, auto-organize leaves every other node exactly as it was. |
| `BrainDump.AutoOrganizeRecolors` | components/modes/BrainDumpPanel.tsx:35-54 | With unique ids, each unparented dumped node gets its label's category colour and the new time stamp. Only its colour, position and time stamp change. |

## Left out

- Pan, zoom, drag, touch handling and the zoom controls of the canvas are left out. They are view transforms over floating point and browser events.
- The SVG path text of an edge and the `rgba(...)` string of `hexToRgba` are left out; the model keeps their numeric inputs. Number-to-text formatting of reals is not modelled.
- Persistence (`persist`), `exportData` (Blob, download link) and the auto-save hook are left out. They are browser I/O. `importData` is modelled as the state change it makes.
- `setContextMenu`, `toggleSidebar` and `updateSettings` are left out. They set UI-only fields that no modelled view reads. `toggleDarkMode` stands for the settings updates.
- `getDefaultData` is left out. The fixture nodes are data, and the constructor takes the initial data as a parameter.
- `generateId`, `Math.random`, `Date.now` and `new Date().toISOString()` are left out. They become the parameters `freshId`, `ids`, `pick`, `positions` and `stamp`.
- `Math.cos`/`Math.sin` of the group layout and the random dump positions are left out: floating point. They come in as the layout function `place` and the list `positions`.
- The `setTimeout` spacing of the dump and the `busy` state are left out. The calls happen in the same order, so the model makes them back to back. The final timer's `setText('')` becomes `BrainDump.HandleDump` returning the empty text after the last node is added.
- Date parsing is left out. A deadline carries the instant its text parses to, or an Invalid Date.
- Numbers are exact: the model has no IEEE rounding. Positions and goal values are reals, estimates integers.
- `toLowerCase` is modelled over ASCII letters only; other letters are left as they are.
- `NodePatch` cannot express a field explicitly set to `undefined`; an absent field means "not in the patch".
- Ids are non-empty strings, as every generated id is. An empty id, which JavaScript would treat as falsy, is outside the model.
- The walks of `getAllDescIds` and `checkCollapsed` take fuel. `None` stands for a walk the fuel cannot finish, which on the source's data means a parent cycle. There the source's recursion overflows the stack and throws a `RangeError`. In `deleteNode` that happens inside `set`, so the error reaches the caller and nothing is written. The model does not throw; `Store.MindFlowStore.DeleteNode` returns with the state unchanged. In the canvas the same overflow aborts the render; the model's `Canvas.Shown` draws a node whose walk runs out of fuel. Lemmas show the fuel suffices on acyclic forests.
- `TaskList.SortTasks` is an insertion sort standing in for `Array.prototype.sort`. Sortedness, permutation and stability pin down the only list a stable sort can give.
- `Object.entries` over the colour groups is taken in first-insertion order. That order is JavaScript's for keys that are not integer-like, and every colour key starts with `#`.
- The `projects` list of `TaskListPanel` is left out. It is computed and unused.
- `cn` (class-name merging) is left out: it is a styling helper.
- The notes editor of the knowledge panel, the goal panel, the node detail panel and the keyboard shortcuts are left out. They are not part of this model's core.
- `Utils.ChannelBound`: states a magnitude of at most 255 for any two-character slice, not the exact 0..255 range of two hex digits. That exact value is `Utils.ChannelOfHexDigits`.
- `Store.MindFlowStore.AddNode`: acyclicity is kept only when the overrides leave `id` and `parentId` alone and the id is fresh. An override that re-parents or renames can make a cycle, and the model does not promise otherwise.
- `Store.MindFlowStore.UpdateNode`: acyclicity is kept only for patches without `id` or `parentId`, for the same reason.
- `BrainDump.AutoOrganizeKeepsOthers`: assumes unique ids. With a duplicate id, `updateNode` also rewrites the other node with that id.
- `BrainDump.AutoOrganizeRecolors`: assumes unique ids, for the same reason.
