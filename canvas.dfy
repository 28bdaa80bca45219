/** The derived views of `components/mindmap/MindMapCanvas.tsx`: which nodes the tasks-mode filter keeps,
    which edges are drawn and in which style, and which nodes a collapsed ancestor hides. Pan,
    zoom and the SVG path text are not modelled; an edge carries its end points instead. */
module Canvas {
  import opened Wrappers
  import opened Seqs
  import opened Text
  import opened Types
  import opened Forest
  import opened Utils

  // ---------------------------------------------------------------- the tasks-mode filter

  /** The filter's per-node test: roots and top-level nodes always pass; any other node must be
      overdue when `showOverdue` is on and urgent when `showUrgent` is on. */
  predicate Keep(f: FilterState, now: int, n: MindNode)
  {
    if IsRoot(n) then true
    else if n.parentId.None? then true
    else (!f.showOverdue || IsOverdue(n.deadline, now)) && (!f.showUrgent || n.priority == Some(Urgent))
  }

  function KeepFn(f: FilterState, now: int): MindNode -> bool
  {
    (n: MindNode) => Keep(f, now, n)
  }

  /** `filteredNodes`: the active forest, narrowed by the filter toggles in tasks mode. */
  function FilteredNodes(mode: AppMode, f: FilterState, now: int, nodes: seq<MindNode>): (r: seq<MindNode>)
    ensures Subseq(r, nodes)
  {
    if mode != Tasks then
      SubseqRefl(nodes);
      nodes
    else if !f.showOverdue && !f.showUrgent && f.projectId.None? then
      SubseqRefl(nodes);
      nodes
    else
      FilterIsSubseq(nodes, KeepFn(f, now));
      Filter(nodes, KeepFn(f, now))
  }

  lemma {:induction false} SubseqRefl<T>(s: seq<T>)
    ensures Subseq(s, s)
    decreases |s|
  {
    if s != [] {
      SubseqRefl(s[1..]);
    }
  }

  /** Outside tasks mode, or with both toggles off, nothing is filtered out; in particular a
      `projectId` alone filters nothing, since no test reads it. */
  lemma FilterInactive(mode: AppMode, f: FilterState, now: int, nodes: seq<MindNode>)
    requires mode != Tasks || (!f.showOverdue && !f.showUrgent)
    ensures FilteredNodes(mode, f, now, nodes) == nodes
  {
    if mode == Tasks && f.projectId.Some? {
      FilterAll(nodes, KeepFn(f, now));
    }
  }

  /** In tasks mode a node survives exactly when it passes the test; outside tasks mode every node
      survives. Roots and top-level nodes always survive. */
  lemma FilterRule(mode: AppMode, f: FilterState, now: int, nodes: seq<MindNode>)
    ensures forall j :: 0 <= j < |nodes| ==>
              (nodes[j] in FilteredNodes(mode, f, now, nodes) <==> mode != Tasks || Keep(f, now, nodes[j]))
    ensures forall j :: 0 <= j < |nodes| && (IsRoot(nodes[j]) || nodes[j].parentId.None?) ==>
              nodes[j] in FilteredNodes(mode, f, now, nodes)
  {
    var r := FilteredNodes(mode, f, now, nodes);
    if mode == Tasks && !f.showOverdue && !f.showUrgent {
      FilterInactive(mode, f, now, nodes);
    }
    forall j | 0 <= j < |nodes| && nodes[j] in r ensures mode != Tasks || Keep(f, now, nodes[j]) {
      if mode == Tasks && (f.showOverdue || f.showUrgent || f.projectId.Some?) && (f.showOverdue || f.showUrgent) {
        var i :| 0 <= i < |r| && r[i] == nodes[j];
      }
    }
  }

  /** The filter does not look at a node's status: a done task passes or fails exactly as it would
      with any other status. */
  lemma FilterIgnoresStatus(f: FilterState, now: int, n: MindNode, s: Option<NodeStatus>)
    ensures Keep(f, now, n) == Keep(f, now, n.(status := s))
  {
  }

  // ---------------------------------------------------------------- edges

  /** One drawn edge: its key, the parent and child positions with the curve's middle abscissa,
      and the stroke style. `glow` is the drop-shadow colour, shown only for the selected node. */
  datatype Edge = Edge(key: string, x1: real, y1: real, x2: real, y2: real, midX: real,
                       stroke: string, width: int, opacity: real, glow: Option<string>)

  /** The search highlight: a non-empty query occurring in the label, both lower-cased. */
  predicate Highlighted(query: string, caption: string)
  {
    query != "" && Contains(Lower(caption), Lower(query))
  }

  /** The highlight ignores case on both sides. */
  lemma HighlightIgnoresCase(query: string, caption: string)
    ensures Highlighted(Lower(query), caption) == Highlighted(query, caption)
    ensures Highlighted(query, Lower(caption)) == Highlighted(query, caption)
  {
    LowerIdempotent(query);
    LowerIdempotent(caption);
    assert |Lower(query)| == |query|;
  }

  /** An edge is drawn for `n` when it names a parent that exists in the unfiltered list (the
      last node with that id, as the id map keeps it) and that parent is not collapsed. */
  predicate HasEdge(nodes: seq<MindNode>, n: MindNode)
  {
    n.parentId.Some? && MapGet(nodes, n.parentId.value).Some? && !MapGet(nodes, n.parentId.value).value.collapsed
  }

  function HasEdgeFn(nodes: seq<MindNode>): MindNode -> bool
  {
    (n: MindNode) => HasEdge(nodes, n)
  }

  /** The stroke colour: the highlight first, then overdue and not done, then the node's colour. */
  function Stroke(n: MindNode, query: string, now: int): string
  {
    if Highlighted(query, n.caption) then "#f59e0b"
    else if IsOverdue(n.deadline, now) && n.status != Some(Done) then "#ef4444"
    else n.color
  }

  /** The body of `renderEdges`' loop for one node. */
  function EdgeFor(nodes: seq<MindNode>, n: MindNode, query: string, selected: Option<string>, now: int): (r: Option<Edge>)
    ensures r.Some? <==> HasEdge(nodes, n)
  {
    if n.parentId.None? then None
    else match MapGet(nodes, n.parentId.value)
      case None => None
      case Some(p) =>
        if p.collapsed then None
        else
          var stroke := Stroke(n, query, now);
          var sel := selected == Some(n.id);
          Some(Edge("e-" + n.id, p.position.x, p.position.y, n.position.x, n.position.y,
                    (p.position.x + n.position.x) / 2.0, stroke,
                    if sel then 3 else 2, if sel then 0.9 else 0.5, if sel then Some(stroke) else None))
  }

  /** The stroke precedence, and the selection's effect on width, opacity and glow. */
  lemma EdgeStyle(nodes: seq<MindNode>, n: MindNode, query: string, selected: Option<string>, now: int)
    requires HasEdge(nodes, n)
    ensures var e := EdgeFor(nodes, n, query, selected, now).value;
            && e.key == "e-" + n.id
            && (Highlighted(query, n.caption) ==> e.stroke == "#f59e0b")
            && (!Highlighted(query, n.caption) && IsOverdue(n.deadline, now) && n.status != Some(Done) ==> e.stroke == "#ef4444")
            && (!Highlighted(query, n.caption) && !(IsOverdue(n.deadline, now) && n.status != Some(Done)) ==> e.stroke == n.color)
            && (e.width == 3 <==> selected == Some(n.id))
            && (e.glow.Some? <==> selected == Some(n.id))
  {
  }

  /** The selection changes only width, opacity and glow, never the stroke or the geometry. */
  lemma SelectionOnlyRestyles(nodes: seq<MindNode>, n: MindNode, query: string, s1: Option<string>, s2: Option<string>, now: int)
    requires HasEdge(nodes, n)
    ensures var e1 := EdgeFor(nodes, n, query, s1, now).value;
            var e2 := EdgeFor(nodes, n, query, s2, now).value;
            e1.(width := e2.width, opacity := e2.opacity, glow := e2.glow) == e2
  {
  }

  /** The edges `renderEdges` returns for the filtered nodes, in their order. */
  function Edges(nodes: seq<MindNode>, filtered: seq<MindNode>, query: string, selected: Option<string>, now: int): seq<Edge>
    decreases |filtered|
  {
    if filtered == [] then []
    else
      var last := filtered[|filtered| - 1];
      Edges(nodes, filtered[..|filtered| - 1], query, selected, now)
        + match EdgeFor(nodes, last, query, selected, now) case None => [] case Some(e) => [e]
  }

  /** `renderEdges()`: walk the filtered nodes and push an edge for each one that has a drawable
      parent. */
  method RenderEdges(nodes: seq<MindNode>, filtered: seq<MindNode>, query: string, selected: Option<string>, now: int)
    returns (edges: seq<Edge>)
    ensures edges == Edges(nodes, filtered, query, selected, now)
  {
    edges := [];
    for i := 0 to |filtered|
      invariant edges == Edges(nodes, filtered[..i], query, selected, now)
    {
      assert filtered[..i + 1][..i] == filtered[..i];
      var node := filtered[i];
      if node.parentId.None? {
        continue;
      }
      var parent := MapGet(nodes, node.parentId.value);
      if parent.None? || parent.value.collapsed {
        continue;
      }
      var e := EdgeFor(nodes, node, query, selected, now);
      edges := edges + [e.value];
    }
    assert filtered[..|filtered|] == filtered;
  }

  /** One edge per filtered node that has a drawable parent. */
  lemma {:induction false} EdgesCount(nodes: seq<MindNode>, filtered: seq<MindNode>, query: string, selected: Option<string>, now: int)
    ensures |Edges(nodes, filtered, query, selected, now)| == Count(filtered, HasEdgeFn(nodes))
    ensures |Edges(nodes, filtered, query, selected, now)| <= |filtered|
    decreases |filtered|
  {
    if filtered != [] {
      EdgesCount(nodes, filtered[..|filtered| - 1], query, selected, now);
      FilterLast(filtered, HasEdgeFn(nodes));
    }
  }

  /** The edge of one of the filtered nodes. */
  predicate EdgeOfSome(nodes: seq<MindNode>, filtered: seq<MindNode>, query: string, selected: Option<string>, now: int, e: Edge)
  {
    exists i :: 0 <= i < |filtered| && EdgeFor(nodes, filtered[i], query, selected, now) == Some(e)
  }

  /** Each edge is the edge of one filtered node. */
  lemma {:induction false} EdgesFromFiltered(nodes: seq<MindNode>, filtered: seq<MindNode>, query: string, selected: Option<string>, now: int)
    ensures forall k :: 0 <= k < |Edges(nodes, filtered, query, selected, now)| ==>
              EdgeOfSome(nodes, filtered, query, selected, now, Edges(nodes, filtered, query, selected, now)[k])
    decreases |filtered|
  {
    if filtered != [] {
      var init := filtered[..|filtered| - 1];
      EdgesFromFiltered(nodes, init, query, selected, now);
      var es := Edges(nodes, filtered, query, selected, now);
      var ei := Edges(nodes, init, query, selected, now);
      forall k | 0 <= k < |es| ensures EdgeOfSome(nodes, filtered, query, selected, now, es[k]) {
        if k < |ei| {
          assert es[k] == ei[k];
          var i :| 0 <= i < |init| && EdgeFor(nodes, init[i], query, selected, now) == Some(ei[k]);
          assert filtered[i] == init[i];
        } else {
          assert EdgeFor(nodes, filtered[|filtered| - 1], query, selected, now) == Some(es[k]);
        }
      }
    }
  }

  // ---------------------------------------------------------------- collapsed ancestors

  /** `checkCollapsed(id)`: look the id up (first match); a missing node hides nothing, a collapsed
      one hides, otherwise continue with its parent. `None` stands for a walk the fuel cannot
      finish, which happens only on a parent cycle of expanded nodes, where the source recurses
      without end. */
  function CheckCollapsed(nodes: seq<MindNode>, id: string, fuel: nat): Option<bool>
    decreases fuel
  {
    if fuel == 0 then None
    else match Find(nodes, id)
      case None => Some(false)
      case Some(p) =>
        if p.collapsed then Some(true)
        else if p.parentId.Some? then CheckCollapsed(nodes, p.parentId.value, fuel - 1)
        else Some(false)
  }

  /** The `k`-th node on the parent chain that starts at id `id` (`k = 0`: the node itself). */
  function AncestorAt(nodes: seq<MindNode>, id: string, k: nat): Option<MindNode>
    decreases k
  {
    match Find(nodes, id)
    case None => None
    case Some(p) =>
      if k == 0 then Some(p)
      else if p.parentId.Some? then AncestorAt(nodes, p.parentId.value, k - 1)
      else None
  }

  /** The walk reports a collapsed node exactly when one of the first `fuel` nodes on the chain is
      collapsed. */
  lemma CheckCollapsedMeaning(nodes: seq<MindNode>, id: string, fuel: nat)
    ensures CheckCollapsed(nodes, id, fuel) == Some(true) <==>
            exists k: nat :: k < fuel && AncestorAt(nodes, id, k).Some? && AncestorAt(nodes, id, k).value.collapsed
  {
    if CheckCollapsed(nodes, id, fuel) == Some(true) {
      var k := CollapsedFoundOnChain(nodes, id, fuel);
    }
    forall k: nat | k < fuel && AncestorAt(nodes, id, k).Some? && AncestorAt(nodes, id, k).value.collapsed
      ensures CheckCollapsed(nodes, id, fuel) == Some(true)
    {
      CollapsedOnChainFound(nodes, id, fuel, k);
    }
  }

  lemma {:induction false} CollapsedOnChainFound(nodes: seq<MindNode>, id: string, fuel: nat, k: nat)
    requires k < fuel && AncestorAt(nodes, id, k).Some? && AncestorAt(nodes, id, k).value.collapsed
    ensures CheckCollapsed(nodes, id, fuel) == Some(true)
    decreases k
  {
    var p := Find(nodes, id).value;
    if k > 0 && !p.collapsed {
      CollapsedOnChainFound(nodes, p.parentId.value, fuel - 1, k - 1);
    }
  }

  lemma {:induction false} CollapsedFoundOnChain(nodes: seq<MindNode>, id: string, fuel: nat) returns (k: nat)
    requires CheckCollapsed(nodes, id, fuel) == Some(true)
    ensures k < fuel && AncestorAt(nodes, id, k).Some? && AncestorAt(nodes, id, k).value.collapsed
    decreases fuel
  {
    var p := Find(nodes, id).value;
    if p.collapsed {
      k := 0;
    } else {
      var k' := CollapsedFoundOnChain(nodes, p.parentId.value, fuel - 1);
      k := k' + 1;
    }
  }

  /** Under the acyclicity invariant the walk finishes: each step moves to a strictly earlier
      position of the list. */
  lemma {:induction false} CheckCollapsedFinishes(nodes: seq<MindNode>, id: string, fuel: nat)
    requires ParentsPrecede(nodes)
    requires FirstIndex(nodes, id).Some? ==> FirstIndex(nodes, id).value + 2 <= fuel
    requires 1 <= fuel
    ensures CheckCollapsed(nodes, id, fuel).Some?
    decreases fuel
  {
    match FirstIndex(nodes, id)
    case None =>
    case Some(i) =>
      var p := nodes[i];
      if !p.collapsed && p.parentId.Some? {
        var q := p.parentId.value;
        match FirstIndex(nodes, q)
        case None =>
          CheckCollapsedFinishes(nodes, q, fuel - 1);
        case Some(i') =>
          assert i' < i;
          CheckCollapsedFinishes(nodes, q, fuel - 1);
      }
  }

  /** Under the invariant a chain is no longer than the position it starts from. */
  lemma {:induction false} AncestorDepth(nodes: seq<MindNode>, id: string, k: nat)
    requires ParentsPrecede(nodes)
    requires AncestorAt(nodes, id, k).Some?
    ensures FirstIndex(nodes, id).Some? && k <= FirstIndex(nodes, id).value
    decreases k
  {
    if k > 0 {
      var i := FirstIndex(nodes, id).value;
      var q := nodes[i].parentId.value;
      AncestorDepth(nodes, q, k - 1);
      assert FirstIndex(nodes, q).value < i;
    }
  }

  /** A node is drawn when it has no parent or `checkCollapsed` of its parent does not report a
      collapsed node. */
  predicate Shown(nodes: seq<MindNode>, n: MindNode)
  {
    n.parentId.None? || CheckCollapsed(nodes, n.parentId.value, |nodes| + 1) != Some(true)
  }

  function ShownFn(nodes: seq<MindNode>): MindNode -> bool
  {
    (n: MindNode) => Shown(nodes, n)
  }

  /** The nodes the canvas draws: the filtered nodes minus those under a collapsed ancestor, looked
      up in the unfiltered list. */
  function VisibleNodes(nodes: seq<MindNode>, filtered: seq<MindNode>): (r: seq<MindNode>)
    ensures Subseq(r, filtered)
  {
    FilterIsSubseq(filtered, ShownFn(nodes));
    Filter(filtered, ShownFn(nodes))
  }

  /** Under the invariant, a node is drawn exactly when it has no parent or no node on its parent
      chain is collapsed, and the walk always finishes. */
  lemma ShownMeaning(nodes: seq<MindNode>, n: MindNode)
    requires ParentsPrecede(nodes)
    ensures n.parentId.Some? ==> CheckCollapsed(nodes, n.parentId.value, |nodes| + 1).Some?
    ensures Shown(nodes, n) <==>
            n.parentId.None? ||
            forall k: nat :: AncestorAt(nodes, n.parentId.value, k).Some? ==> !AncestorAt(nodes, n.parentId.value, k).value.collapsed
  {
    if n.parentId.Some? {
      var q := n.parentId.value;
      CheckCollapsedFinishes(nodes, q, |nodes| + 1);
      CheckCollapsedMeaning(nodes, q, |nodes| + 1);
      forall k: nat | AncestorAt(nodes, q, k).Some? ensures k < |nodes| + 1 {
        AncestorDepth(nodes, q, k);
      }
    }
  }

  /** Node `B` collapsed under `A` under the root: `C`, below `B`, is hidden, while `B` itself and
      everything above it are drawn. */
  lemma CollapseExample()
    ensures var root := Plain("root", None, false);
            var a := Plain("A", Some("root"), false);
            var b := Plain("B", Some("A"), true);
            var c := Plain("C", Some("B"), false);
            var nodes := [root, a, b, c];
            Shown(nodes, root) && Shown(nodes, a) && Shown(nodes, b) && !Shown(nodes, c)
  {
    var root := Plain("root", None, false);
    var a := Plain("A", Some("root"), false);
    var b := Plain("B", Some("A"), true);
    var c := Plain("C", Some("B"), false);
    var nodes := [root, a, b, c];
    FindOnly(nodes, 0);
    FindOnly(nodes, 1);
    FindOnly(nodes, 2);
    assert CheckCollapsed(nodes, "root", 3) == Some(false);
    assert CheckCollapsed(nodes, "A", 5) == Some(false);
  }

  lemma FindOnly(nodes: seq<MindNode>, j: nat)
    requires j < |nodes|
    requires forall i :: 0 <= i < |nodes| && i != j ==> nodes[i].id != nodes[j].id
    ensures Find(nodes, nodes[j].id) == Some(nodes[j])
  {
  }

  function Plain(id: NodeId, parentId: Option<NodeId>, collapsed: bool): MindNode
  {
    MindNode(id, parentId, "", "", Position(0.0, 0.0), collapsed, None, None, None, None, None,
             None, None, None, None, None, None, "", "", None)
  }
}
