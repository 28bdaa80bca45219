/** The state object of `lib/store.ts`. Every store action replaces some of its fields; the
    computations behind those replacements live in module `Forest`. Generated ids, the random
    palette pick and the clock reading come in as arguments. */
module Store {
  import opened Wrappers
  import opened Seqs
  import opened Types
  import opened Forest

  class MindFlowStore {
    var data: MindFlowData
    var activeMode: AppMode
    var selectedNodeId: Option<string>
    var editingNodeId: Option<string>
    var searchQuery: string
    var filterState: FilterState

    /** A new store over `initial` (the default data or what persistence restored). */
    constructor (initial: MindFlowData)
      ensures data == initial && activeMode == Tasks
      ensures selectedNodeId == None && editingNodeId == None
      ensures searchQuery == "" && filterState == FilterState(false, false, None)
    {
      data := initial;
      activeMode := Tasks;
      selectedNodeId := None;
      editingNodeId := None;
      searchQuery := "";
      filterState := FilterState(false, false, None);
    }

    /** `getNodes()`: the active mode's forest. */
    function GetNodes(): seq<MindNode>
      reads this
    {
      data.Forest(activeMode)
    }

    /** Every forest keeps the acyclicity invariant of `Forest.ParentsPrecede`. */
    ghost predicate Acyclic()
      reads this
    {
      forall m: AppMode :: ParentsPrecede(data.Forest(m))
    }

    /** `id` is unused in the active forest, as an id and as a parent reference. */
    predicate FreshInActive(id: NodeId)
      reads this
    {
      forall i :: 0 <= i < |GetNodes()| ==> GetNodes()[i].id != id && GetNodes()[i].parentId != Some(id)
    }

    /** `getChildren(parentId)`: the active forest's children of `parentId`, in list order. */
    function GetChildren(parentId: NodeId): (r: seq<MindNode>)
      reads this
      ensures Subseq(r, GetNodes())
      ensures forall i :: 0 <= i < |r| ==> r[i].parentId == Some(parentId)
      ensures forall j :: 0 <= j < |GetNodes()| && GetNodes()[j].parentId == Some(parentId) ==> GetNodes()[j] in r
    {
      Children(GetNodes(), Some(parentId))
    }

    /** `setActiveMode`: switching mode drops the selection and the node being edited. */
    method SetActiveMode(mode: AppMode)
      modifies this
      ensures activeMode == mode && selectedNodeId == None && editingNodeId == None
      ensures data == old(data) && searchQuery == old(searchQuery) && filterState == old(filterState)
    {
      activeMode := mode;
      selectedNodeId := None;
      editingNodeId := None;
    }

    method SetSelectedNode(id: Option<string>)
      modifies this`selectedNodeId
      ensures selectedNodeId == id
    {
      selectedNodeId := id;
    }

    method SetEditingNode(id: Option<string>)
      modifies this`editingNodeId
      ensures editingNodeId == id
    {
      editingNodeId := id;
    }

    method SetSearchQuery(q: string)
      modifies this`searchQuery
      ensures searchQuery == q
    {
      searchQuery := q;
    }

    /** `addNode(parentId, overrides)`: one node appended at the end of the active forest, the other
        forests untouched, the new id selected, put into editing and moved to the front of the
        recent list. The returned and selected id is the generated one even when the overrides
        carry another. */
    method AddNode(parentId: Option<NodeId>, ov: NodePatch, freshId: NodeId, pick: nat, stamp: Timestamp)
      returns (id: NodeId)
      requires pick < |DEFAULT_COLORS|
      modifies this
      ensures id == freshId
      ensures data == old(data).WithForest(old(activeMode),
                        old(GetNodes()) + [NewNode(old(GetNodes()), parentId, ov, freshId, pick, stamp)])
                      .(recentNodeIds := PushRecent(old(data.recentNodeIds), freshId))
      ensures selectedNodeId == Some(freshId) && editingNodeId == Some(freshId)
      ensures activeMode == old(activeMode) && searchQuery == old(searchQuery) && filterState == old(filterState)
      ensures (old(Acyclic()) && old(FreshInActive(freshId)) && parentId != Some(freshId)
               && ov.id.None? && ov.parentId.None?) ==> Acyclic()
    {
      id := freshId;
      var nodes := GetNodes();
      var node := NewNode(nodes, parentId, ov, id, pick, stamp);
      ghost var before := data;
      data := data.WithForest(activeMode, nodes + [node]);
      selectedNodeId := Some(id);
      editingNodeId := Some(id);
      AddRecentNode(id);
      if old(Acyclic()) && old(FreshInActive(freshId)) && parentId != Some(freshId) && ov.id.None? && ov.parentId.None? {
        AddKeepsParentsPrecede(nodes, parentId, ov, id, pick, stamp);
        assert forall m: AppMode :: m != activeMode ==> data.Forest(m) == before.Forest(m);
      }
    }

    /** `updateNode(id, updates)`: the active forest with the update applied to the nodes with that
        id; nothing else changes. */
    method UpdateNode(id: string, p: NodePatch, stamp: Timestamp)
      modifies this`data
      ensures data == old(data).WithForest(activeMode, UpdateForest(old(GetNodes()), id, p, stamp))
      ensures old(Acyclic()) && p.id.None? && p.parentId.None? ==> Acyclic()
    {
      var nodes := GetNodes();
      ghost var before := data;
      data := data.WithForest(activeMode, UpdateForest(nodes, id, p, stamp));
      if old(Acyclic()) && p.id.None? && p.parentId.None? {
        UpdateKeepsParentsPrecede(nodes, id, p, stamp);
        assert forall m: AppMode :: m != activeMode ==> data.Forest(m) == before.Forest(m);
      }
    }

    /** `deleteNode(id)`: the node and every descendant leave the active forest; the selection is
        dropped only when it is `id` itself, and the node being edited is kept. There is no
        guard against deleting a root. When the cascade does not finish (a parent cycle, on
        which the source recursion overflows the stack and the update is abandoned), nothing
        changes. */
    method DeleteNode(id: NodeId)
      modifies this`data, this`selectedNodeId
      ensures Cascade(old(GetNodes()), id).None? ==> data == old(data) && selectedNodeId == old(selectedNodeId)
      ensures Cascade(old(GetNodes()), id).Some? ==>
                && data == old(data).WithForest(activeMode, RemoveIds(old(GetNodes()), Cascade(old(GetNodes()), id).value))
                && selectedNodeId == (if old(selectedNodeId) == Some(id) then None else old(selectedNodeId))
      ensures old(Acyclic()) ==> Cascade(old(GetNodes()), id).Some? && Acyclic()
    {
      var nodes := GetNodes();
      if old(Acyclic()) {
        CascadeFinishes(nodes, id);
      }
      match Cascade(nodes, id)
      case None =>
      case Some(ids) =>
        ghost var before := data;
        data := data.WithForest(activeMode, RemoveIds(nodes, ids));
        if selectedNodeId == Some(id) {
          selectedNodeId := None;
        }
        if old(Acyclic()) {
          DeleteLeaves(nodes, id);
          assert forall m: AppMode :: m != activeMode ==> data.Forest(m) == before.Forest(m);
        }
    }

    /** `toggleDarkMode()`. */
    method ToggleDarkMode()
      modifies this`data
      ensures data == old(data).(settings := old(data.settings).(darkMode := !old(data.settings.darkMode)))
    {
      data := data.(settings := data.settings.(darkMode := !data.settings.darkMode));
    }

    /** `setFilter(patch)`: the given toggles replace the current ones. */
    method SetFilter(p: FilterPatch)
      modifies this`filterState
      ensures filterState == ApplyFilterPatch(old(filterState), p)
    {
      filterState := ApplyFilterPatch(filterState, p);
    }

    /** `importData(data)`: the whole aggregate is replaced, selection and mode are kept. */
    method ImportData(d: MindFlowData)
      modifies this`data
      ensures data == d
    {
      data := d;
    }

    /** `addRecentNode(id)`. */
    method AddRecentNode(id: string)
      modifies this`data
      ensures data == old(data).(recentNodeIds := PushRecent(old(data.recentNodeIds), id))
    {
      data := data.(recentNodeIds := PushRecent(data.recentNodeIds, id));
    }

    /** `getNodeById(id)`: the first match scanning tasks, braindump, planner, goals and knowledge
        in that order, or nothing. */
    method GetNodeById(id: string) returns (r: Option<MindNode>)
      ensures r.None? <==> LocateNode(data, id).None?
      ensures r.Some? ==> r.value == LocateNode(data, id).value.0 && r.value.id == id
    {
      var i := 0;
      while i < |MODES|
        invariant 0 <= i <= |MODES|
        invariant forall k :: 0 <= k < i ==> Find(data.Forest(MODES[k]), id).None?
      {
        var n := Find(data.Forest(MODES[i]), id);
        if n.Some? {
          var loc := LocateNode(data, id);
          assert loc.Some?;
          var k :| 0 <= k < |MODES| && MODES[k] == loc.value.1
                   && Find(data.Forest(MODES[k]), id) == Some(loc.value.0)
                   && forall k' :: 0 <= k' < k ==> Find(data.Forest(MODES[k']), id).None?;
          assert k == i;
          return n;
        }
        i := i + 1;
      }
      return None;
    }
  }
}
