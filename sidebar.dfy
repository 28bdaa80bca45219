/** The derived numbers and actions of `components/layout/Sidebar.tsx`: the tasks-mode statistics, the
    recent-node list, the quick-add box and a click on a recent node. */
module Sidebar {
  import opened Wrappers
  import opened Seqs
  import opened Text
  import opened Types
  import opened Forest
  import opened Utils
  import opened Store
  import TaskList

  // ---------------------------------------------------------------- statistics

  function NotRoot(): MindNode -> bool
  {
    (n: MindNode) => !IsRoot(n)
  }

  function HasStatus(): MindNode -> bool
  {
    (n: MindNode) => n.status.Some?
  }

  function UrgentOpen(): MindNode -> bool
  {
    (n: MindNode) => n.priority == Some(Urgent) && n.status != Some(Done)
  }

  datatype Stats = Stats(total: nat, done: nat, overdue: nat, urgent: nat)

  /** `stats`, taken over the non-root nodes of the tasks forest whatever mode is active. */
  function TaskStats(d: MindFlowData, now: int): (r: Stats)
    ensures r.done <= r.total <= |d.tasks|
    ensures r.overdue <= |d.tasks| && r.urgent <= |d.tasks|
    ensures r.total == |TaskList.AllTasks(d.tasks)|
    ensures r.done == Count(TaskList.AllTasks(d.tasks), TaskList.IsDoneFn())
    ensures r.overdue == Count(d.tasks, NonRootAnd(TaskList.OverdueOpenFn(now)))
    ensures r.urgent == Count(d.tasks, NonRootAnd(UrgentOpen()))
  {
    var taskNodes := Filter(d.tasks, NotRoot());
    CountMono(taskNodes, TaskList.IsDoneFn(), HasStatus());
    NonRootThen(d.tasks, HasStatus());
    NonRootThen(d.tasks, TaskList.IsDoneFn());
    NonRootThen(d.tasks, TaskList.OverdueOpenFn(now));
    NonRootThen(d.tasks, UrgentOpen());
    NonRootDoneIsTaskDone(d.tasks);
    Stats(Count(taskNodes, HasStatus()), Count(taskNodes, TaskList.IsDoneFn()),
          Count(taskNodes, TaskList.OverdueOpenFn(now)), Count(taskNodes, UrgentOpen()))
  }

  function NonRootAnd(q: MindNode -> bool): MindNode -> bool
  {
    (n: MindNode) => !IsRoot(n) && q(n)
  }

  /** The task list counts only nodes with a status, so any count it takes is at most the count
      over all non-root nodes. */
  lemma {:induction false} TaskCountAtMost(s: seq<MindNode>, q: MindNode -> bool)
    ensures Count(Filter(s, TaskList.IsTaskFn()), q) <= Count(s, NonRootAnd(q))
    decreases |s|
  {
    if s != [] {
      var t := s[1..];
      TaskCountAtMost(t, q);
      assert [s[0]] + t == s;
      FilterCons(s[0], t, TaskList.IsTaskFn());
      FilterCons(s[0], t, NonRootAnd(q));
      if TaskList.IsTaskFn()(s[0]) {
        FilterCons(s[0], Filter(t, TaskList.IsTaskFn()), q);
      } else {
        assert Filter(s, TaskList.IsTaskFn()) == Filter(t, TaskList.IsTaskFn());
        assert Count(s, NonRootAnd(q)) >= Count(t, NonRootAnd(q));
      }
    }
  }

  /** The sidebar's overdue number is never below the task list's badge. */
  lemma OverdueAtLeastBadge(d: MindFlowData, now: int)
    ensures TaskList.Summarize(d.tasks, now).overdue <= TaskStats(d, now).overdue
  {
    TaskCountAtMost(d.tasks, TaskList.OverdueOpenFn(now));
    assert TaskList.AllTasks(d.tasks) == Filter(d.tasks, TaskList.IsTaskFn());
  }

  /** An overdue node without a status counts in the sidebar but not in the badge. */
  lemma OverdueWithoutStatus()
    ensures var n := MindNode("t", None, "call", "", Position(0.0, 0.0), false, None, None,
                              Some(Deadline("2024-01-01", Some(0))), None, None, None, None, None,
                              None, None, None, "", "", None);
            var d := MindFlowData([n], [], [], [], [], AppSettings(false, "", false), [], "1");
            TaskStats(d, 1).overdue == 1 && TaskList.Summarize(d.tasks, 1).overdue == 0
  {
    var n := MindNode("t", None, "call", "", Position(0.0, 0.0), false, None, None,
                      Some(Deadline("2024-01-01", Some(0))), None, None, None, None, None,
                      None, None, None, "", "", None);
    assert [n] + [] == [n];
    assert IsOverdue(n.deadline, 1);
    assert TaskList.OverdueOpenFn(1)(n);
    assert NonRootAnd(TaskList.OverdueOpenFn(1))(n);
    FilterCons(n, [], NonRootAnd(TaskList.OverdueOpenFn(1)));
    FilterCons(n, [], TaskList.IsTaskFn());
    assert TaskList.AllTasks([n]) == [];
  }

  /** Counting among the non-root nodes is counting the nodes that are non-root and qualify. */
  lemma {:induction false} NonRootThen(s: seq<MindNode>, q: MindNode -> bool)
    ensures Count(Filter(s, NotRoot()), q) == Count(s, NonRootAnd(q))
    decreases |s|
  {
    if s != [] {
      NonRootThen(s[1..], q);
      FilterCons(s[0], s[1..], NotRoot());
      FilterCons(s[0], s[1..], NonRootAnd(q));
      assert [s[0]] + s[1..] == s;
      if !IsRoot(s[0]) {
        FilterCons(s[0], Filter(s[1..], NotRoot()), q);
        assert Filter(s, NotRoot()) == [s[0]] + Filter(s[1..], NotRoot());
      } else {
        assert Filter(s, NotRoot()) == Filter(s[1..], NotRoot());
      }
    }
  }

  /** `TaskListPanel`'s done count, taken directly over the forest. */
  lemma {:induction false} NonRootDoneIsTaskDone(s: seq<MindNode>)
    ensures Count(TaskList.AllTasks(s), TaskList.IsDoneFn()) == Count(s, NonRootAnd(TaskList.IsDoneFn()))
    ensures |TaskList.AllTasks(s)| == Count(s, NonRootAnd(HasStatus()))
    decreases |s|
  {
    if s != [] {
      NonRootDoneIsTaskDone(s[1..]);
      assert [s[0]] + s[1..] == s;
      FilterCons(s[0], s[1..], TaskList.IsTaskFn());
      FilterCons(s[0], s[1..], NonRootAnd(TaskList.IsDoneFn()));
      FilterCons(s[0], s[1..], NonRootAnd(HasStatus()));
      if TaskList.IsTaskFn()(s[0]) {
        assert TaskList.AllTasks(s) == [s[0]] + TaskList.AllTasks(s[1..]);
        FilterCons(s[0], TaskList.AllTasks(s[1..]), TaskList.IsDoneFn());
      } else {
        assert TaskList.AllTasks(s) == TaskList.AllTasks(s[1..]);
        assert !NonRootAnd(TaskList.IsDoneFn())(s[0]);
      }
    }
  }

  // ---------------------------------------------------------------- recent items

  const RECENT_SHOWN := 8

  /** `s.map(f).filter(Boolean)`: the values `f` gives, in order, the missing ones dropped. */
  function MapFilter<A, B>(s: seq<A>, f: A -> Option<B>): (r: seq<B>)
    ensures |r| <= |s|
    decreases |s|
  {
    if s == [] then []
    else (match f(s[0]) case None => [] case Some(b) => [b]) + MapFilter(s[1..], f)
  }

  /** Each value comes from one of the inputs. */
  lemma {:induction false} MapFilterSources<A, B>(s: seq<A>, f: A -> Option<B>)
    ensures forall k :: 0 <= k < |MapFilter(s, f)| ==> exists i :: 0 <= i < |s| && f(s[i]) == Some(MapFilter(s, f)[k])
    decreases |s|
  {
    if s != [] {
      var rest := MapFilter(s[1..], f);
      MapFilterSources(s[1..], f);
      var r := MapFilter(s, f);
      match f(s[0])
      case None =>
        assert r == rest;
        forall k | 0 <= k < |r| ensures exists i :: 0 <= i < |s| && f(s[i]) == Some(r[k]) {
          var i :| 0 <= i < |s[1..]| && f(s[1..][i]) == Some(rest[k]);
          assert s[1..][i] == s[i + 1];
        }
      case Some(b) =>
        assert r == [b] + rest;
        forall k | 0 <= k < |r| ensures exists i :: 0 <= i < |s| && f(s[i]) == Some(r[k]) {
          if k == 0 {
            assert f(s[0]) == Some(r[k]);
          } else {
            assert r[k] == rest[k - 1];
            var i :| 0 <= i < |s[1..]| && f(s[1..][i]) == Some(rest[k - 1]);
            assert s[1..][i] == s[i + 1];
          }
        }
    } else {
      assert MapFilter(s, f) == [];
    }
  }

  function LocateFn(d: MindFlowData): string -> Option<(MindNode, AppMode)>
  {
    (id: string) => LocateNode(d, id)
  }

  /** The ids resolved one by one, first match over the modes, unresolvable ids dropped. */
  function Resolve(d: MindFlowData, ids: seq<string>): (r: seq<(MindNode, AppMode)>)
    ensures |r| <= |ids|
  {
    MapFilter(ids, LocateFn(d))
  }

  /** `item` is what one of the ids resolves to. */
  predicate ResolvedFrom(d: MindFlowData, ids: seq<string>, item: (MindNode, AppMode))
  {
    exists i :: 0 <= i < |ids| && LocateNode(d, ids[i]) == Some(item)
  }

  /** Each item is what one of the ids resolves to. */
  lemma ResolveSources(d: MindFlowData, ids: seq<string>)
    ensures forall k :: 0 <= k < |Resolve(d, ids)| ==> ResolvedFrom(d, ids, Resolve(d, ids)[k])
  {
    MapFilterSources(ids, LocateFn(d));
  }

  /** `recentItems`: the first eight recent ids, resolved. */
  function RecentItems(d: MindFlowData): (r: seq<(MindNode, AppMode)>)
    ensures |r| <= RECENT_SHOWN
  {
    Resolve(d, Take(d.recentNodeIds, RECENT_SHOWN))
  }

  function ItemIds(r: seq<(MindNode, AppMode)>): (ids: seq<string>)
    ensures |ids| == |r|
    ensures forall k :: 0 <= k < |r| ==> ids[k] == r[k].0.id
  {
    seq(|r|, k requires 0 <= k < |r| => r[k].0.id)
  }

  function Resolvable(d: MindFlowData): string -> bool
  {
    (id: string) => LocateNode(d, id).Some?
  }

  /** The items are exactly the resolvable ids, in their order: their ids are the recent ids
      without the unresolvable ones. */
  lemma {:induction false} ResolveKeepsOrder(d: MindFlowData, ids: seq<string>)
    ensures ItemIds(Resolve(d, ids)) == Filter(ids, Resolvable(d))
    decreases |ids|
  {
    if ids != [] {
      ResolveKeepsOrder(d, ids[1..]);
      var rest := Resolve(d, ids[1..]);
      FilterCons(ids[0], ids[1..], Resolvable(d));
      assert [ids[0]] + ids[1..] == ids;
      match LocateNode(d, ids[0])
      case None =>
      case Some(item) =>
        ItemIdsCons(item, rest);
    }
  }

  lemma ItemIdsCons(x: (MindNode, AppMode), r: seq<(MindNode, AppMode)>)
    ensures ItemIds([x] + r) == [x.0.id] + ItemIds(r)
  {
  }

  /** Each item is where a first-match scan over the modes finds its id. */
  lemma ResolveFindsFirst(d: MindFlowData, ids: seq<string>)
    ensures forall k :: 0 <= k < |Resolve(d, ids)| ==> Some(Resolve(d, ids)[k]) == LocateNode(d, Resolve(d, ids)[k].0.id)
  {
    var r := Resolve(d, ids);
    ResolveSources(d, ids);
    forall k | 0 <= k < |r| ensures Some(r[k]) == LocateNode(d, r[k].0.id) {
      assert ResolvedFrom(d, ids, r[k]);
      var i :| 0 <= i < |ids| && LocateNode(d, ids[i]) == Some(r[k]);
    }
  }

  /** The recent list shows the resolvable ones among the first eight recent ids, in order. */
  lemma RecentItemsShape(d: MindFlowData)
    ensures ItemIds(RecentItems(d)) == Filter(Take(d.recentNodeIds, RECENT_SHOWN), Resolvable(d))
    ensures Subseq(ItemIds(RecentItems(d)), d.recentNodeIds)
  {
    var ids := Take(d.recentNodeIds, RECENT_SHOWN);
    ResolveKeepsOrder(d, ids);
    FilterIsSubseq(ids, Resolvable(d));
    TakeIsSubseq(d.recentNodeIds, RECENT_SHOWN);
    SubseqTrans(ItemIds(RecentItems(d)), ids, d.recentNodeIds);
  }

  // ---------------------------------------------------------------- actions

  /** The overrides of a quick-added node: only its label. */
  function LabelPatch(caption: string): (p: NodePatch)
    ensures p.caption == Some(caption) && p.(caption := None) == EmptyPatch
  {
    EmptyPatch.(caption := Some(caption))
  }

  /** `handleAdd()`: blank input does nothing; otherwise a top-level node labelled with the trimmed
      text is added and selected, and the new input text is empty. */
  method HandleQuickAdd(st: MindFlowStore, input: string, freshId: NodeId, pick: nat, stamp: Timestamp)
    returns (newInput: string)
    requires pick < |DEFAULT_COLORS|
    modifies st
    ensures Trim(input) == "" ==>
              && newInput == input && st.data == old(st.data) && st.activeMode == old(st.activeMode)
              && st.selectedNodeId == old(st.selectedNodeId) && st.editingNodeId == old(st.editingNodeId)
    ensures Trim(input) != "" ==>
              && newInput == ""
              && st.data == old(st.data).WithForest(old(st.activeMode),
                   old(st.GetNodes()) + [NewNode(old(st.GetNodes()), None, LabelPatch(Trim(input)), freshId, pick, stamp)])
                   .(recentNodeIds := PushRecent(old(st.data.recentNodeIds), freshId))
              && st.activeMode == old(st.activeMode)
              && st.GetNodes()[|st.GetNodes()| - 1].caption == Trim(input)
              && st.GetNodes()[|st.GetNodes()| - 1].parentId == None
              && st.selectedNodeId == Some(freshId) && st.editingNodeId == Some(freshId)
    ensures st.searchQuery == old(st.searchQuery) && st.filterState == old(st.filterState)
  {
    var text := Trim(input);
    if text == "" {
      return input;
    }
    ghost var nodes0 := st.GetNodes();
    ghost var n := NewNode(nodes0, None, LabelPatch(text), freshId, pick, stamp);
    QuickAdded(nodes0, text, freshId, pick, stamp);
    var id := st.AddNode(None, LabelPatch(text), freshId, pick, stamp);
    newInput := "";
    st.SetSelectedNode(Some(id));
    assert st.GetNodes() == nodes0 + [n];
  }

  /** The node a quick add appends is top-level and carries the trimmed text as its caption. */
  lemma QuickAdded(nodes: seq<MindNode>, text: string, freshId: NodeId, pick: nat, stamp: Timestamp)
    requires pick < |DEFAULT_COLORS|
    ensures var n := NewNode(nodes, None, LabelPatch(text), freshId, pick, stamp);
            n.caption == text && n.parentId == None
  {
  }

  /** A click on a recent item: switch to its mode, which drops the selection, then select it. */
  method RecentClick(st: MindFlowStore, item: (MindNode, AppMode))
    modifies st
    ensures st.activeMode == item.1 && st.selectedNodeId == Some(item.0.id) && st.editingNodeId == None
    ensures st.data == old(st.data) && st.searchQuery == old(st.searchQuery) && st.filterState == old(st.filterState)
  {
    st.SetActiveMode(item.1);
    st.SetSelectedNode(Some(item.0.id));
  }
}
