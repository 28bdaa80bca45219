/** The pure part of `lib/store.ts`: lookups in a node list, the descendant cascade of
    `deleteNode`, the per-node merge of `updateNode`, the default node `addNode` builds and
    the recent-list update of `addRecentNode`. */
module Forest {
  import opened Wrappers
  import opened Seqs
  import opened Types

  // ---------------------------------------------------------------- lookups

  /** The index of the first node with id `id`. */
  function FirstIndex(nodes: seq<MindNode>, id: string): (r: Option<nat>)
    ensures r.Some? ==> r.value < |nodes| && nodes[r.value].id == id
    ensures r.Some? ==> forall j :: 0 <= j < r.value ==> nodes[j].id != id
    ensures r.None? ==> forall j :: 0 <= j < |nodes| ==> nodes[j].id != id
    decreases |nodes|
  {
    if nodes == [] then None
    else if nodes[0].id == id then Some(0)
    else match FirstIndex(nodes[1..], id)
      case None => None
      case Some(k) => Some(k + 1)
  }

  /** `nodes.find((n) => n.id === id)`: the first node with that id. */
  function Find(nodes: seq<MindNode>, id: string): (r: Option<MindNode>)
    ensures r.None? <==> forall j :: 0 <= j < |nodes| ==> nodes[j].id != id
    ensures r.Some? ==> exists j :: 0 <= j < |nodes| && nodes[j] == r.value
                                    && forall k :: 0 <= k < j ==> nodes[k].id != id
    ensures r.Some? ==> r.value.id == id
  {
    match FirstIndex(nodes, id)
    case None => None
    case Some(k) => Some(nodes[k])
  }

  /** The index of the last node with id `id`. */
  function LastIndex(nodes: seq<MindNode>, id: string): (r: Option<nat>)
    ensures r.Some? ==> r.value < |nodes| && nodes[r.value].id == id
    ensures r.Some? ==> forall j :: r.value < j < |nodes| ==> nodes[j].id != id
    ensures r.None? ==> forall j :: 0 <= j < |nodes| ==> nodes[j].id != id
    decreases |nodes|
  {
    if nodes == [] then None
    else if nodes[|nodes| - 1].id == id then Some(|nodes| - 1)
    else LastIndex(nodes[..|nodes| - 1], id)
  }

  /** `new Map(nodes.map((n) => [n.id, n])).get(id)`: a later entry with the same key replaces an
      earlier one, so the last node with that id. */
  function MapGet(nodes: seq<MindNode>, id: string): (r: Option<MindNode>)
    ensures r.None? <==> forall j :: 0 <= j < |nodes| ==> nodes[j].id != id
    ensures r.Some? ==> exists j :: 0 <= j < |nodes| && nodes[j] == r.value
                                    && forall k :: j < k < |nodes| ==> nodes[k].id != id
    ensures r.Some? ==> r.value.id == id
  {
    match LastIndex(nodes, id)
    case None => None
    case Some(k) => Some(nodes[k])
  }

  /** With a repeated id the two lookups differ: `find` returns the first node, the map the last. */
  lemma FindMapGetDiffer()
    ensures var a := MindNode("a", None, "first", "", Position(0.0, 0.0), false, None, None, None, None,
                              None, None, None, None, None, None, None, "", "", None);
            var b := a.(caption := "second");
            Find([a, b], "a") == Some(a) && MapGet([a, b], "a") == Some(b)
  {
  }

  /** With ids that do not repeat, the map lookup and `find` agree. */
  lemma MapGetIsFind(nodes: seq<MindNode>, id: string)
    requires forall i, j :: 0 <= i < j < |nodes| ==> nodes[i].id != nodes[j].id
    ensures MapGet(nodes, id) == Find(nodes, id)
  {
    var a, b := FirstIndex(nodes, id), LastIndex(nodes, id);
    if a.Some? {
      assert b.Some?;
      assert a.value == b.value;
    }
  }

  function ParentIs(p: Option<NodeId>): MindNode -> bool
  {
    (n: MindNode) => n.parentId == p
  }

  /** `nodes.filter((n) => n.parentId === p)`. */
  function Children(nodes: seq<MindNode>, p: Option<NodeId>): (r: seq<MindNode>)
    ensures forall i :: 0 <= i < |r| ==> r[i] in nodes && r[i].parentId == p
    ensures forall j :: 0 <= j < |nodes| && nodes[j].parentId == p ==> nodes[j] in r
    ensures Subseq(r, nodes)
  {
    FilterIsSubseq(nodes, ParentIs(p));
    Filter(nodes, ParentIs(p))
  }

  /** The first mode, in the order `modes` lists them, whose forest holds a node with id `id`,
      together with that forest's first such node. */
  function Locate(d: MindFlowData, modes: seq<AppMode>, id: string): (r: Option<(MindNode, AppMode)>)
    ensures r.None? <==> forall k :: 0 <= k < |modes| ==> Find(d.Forest(modes[k]), id).None?
    ensures r.Some? ==> exists k :: 0 <= k < |modes| && modes[k] == r.value.1
                                  && Find(d.Forest(modes[k]), id) == Some(r.value.0)
                                  && forall k' :: 0 <= k' < k ==> Find(d.Forest(modes[k']), id).None?
    ensures r.Some? ==> r.value.0.id == id
    decreases |modes|
  {
    if modes == [] then None
    else match Find(d.Forest(modes[0]), id)
      case Some(n) => Some((n, modes[0]))
      case None =>
        var r := Locate(d, modes[1..], id);
        LocateShift(d, modes, id, r);
        r
  }

  /** An answer for the later modes is the answer for all of them when the first mode misses. */
  lemma LocateShift(d: MindFlowData, modes: seq<AppMode>, id: string, r: Option<(MindNode, AppMode)>)
    requires modes != [] && Find(d.Forest(modes[0]), id).None?
    requires r.None? <==> forall k :: 0 <= k < |modes[1..]| ==> Find(d.Forest(modes[1..][k]), id).None?
    requires r.Some? ==> exists k :: 0 <= k < |modes[1..]| && modes[1..][k] == r.value.1
                                   && Find(d.Forest(modes[1..][k]), id) == Some(r.value.0)
                                   && forall k' :: 0 <= k' < k ==> Find(d.Forest(modes[1..][k']), id).None?
    ensures r.None? <==> forall k :: 0 <= k < |modes| ==> Find(d.Forest(modes[k]), id).None?
    ensures r.Some? ==> exists k :: 0 <= k < |modes| && modes[k] == r.value.1
                                  && Find(d.Forest(modes[k]), id) == Some(r.value.0)
                                  && forall k' :: 0 <= k' < k ==> Find(d.Forest(modes[k']), id).None?
  {
    var tail := modes[1..];
    assert forall k :: 1 <= k < |modes| ==> modes[k] == tail[k - 1];
    if r.Some? {
      var k :| 0 <= k < |tail| && tail[k] == r.value.1 && Find(d.Forest(tail[k]), id) == Some(r.value.0)
               && forall k' :: 0 <= k' < k ==> Find(d.Forest(tail[k']), id).None?;
      assert modes[k + 1] == tail[k];
      forall k' | 0 <= k' < k + 1 ensures Find(d.Forest(modes[k']), id).None? {
        if k' > 0 {
          assert modes[k'] == tail[k' - 1];
        }
      }
    }
  }

  /** The cross-mode lookup of `getNodeById` and of the sidebar's recent list. */
  function LocateNode(d: MindFlowData, id: string): Option<(MindNode, AppMode)>
  {
    Locate(d, MODES, id)
  }

  // ---------------------------------------------------------------- acyclicity

  /** Every node's parent occurs, if at all, before the node: no node at or after position `i`
      carries the id that node `i` names as its parent. The source does not enforce this; it
      holds for lists built by `addNode` with fresh ids and is kept by updates that leave `id`
      and `parentId` alone and by deletions. */
  predicate ParentsPrecede(nodes: seq<MindNode>)
  {
    forall i, j :: 0 <= i <= j < |nodes| && nodes[i].parentId.Some? ==> nodes[i].parentId.value != nodes[j].id
  }

  /** Head-first reading of the invariant. */
  predicate HeadFits(x: MindNode, t: seq<MindNode>)
  {
    x.parentId.Some? ==> x.parentId.value != x.id && forall j :: 0 <= j < |t| ==> t[j].id != x.parentId.value
  }

  lemma ParentsPrecedeCons(x: MindNode, t: seq<MindNode>)
    ensures ParentsPrecede([x] + t) <==> HeadFits(x, t) && ParentsPrecede(t)
  {
    var s := [x] + t;
    if HeadFits(x, t) && ParentsPrecede(t) {
      forall i, j | 0 <= i <= j < |s| && s[i].parentId.Some?
        ensures s[i].parentId.value != s[j].id
      {
        if i > 0 {
          assert s[i] == t[i - 1] && s[j] == t[j - 1];
        } else if j > 0 {
          assert s[j] == t[j - 1];
        }
      }
    }
    if ParentsPrecede(s) {
      forall i, j | 0 <= i <= j < |t| && t[i].parentId.Some?
        ensures t[i].parentId.value != t[j].id
      {
        assert t[i] == s[i + 1] && t[j] == s[j + 1];
      }
      if x.parentId.Some? {
        assert s[0] == x;
        forall j | 0 <= j < |t| ensures t[j].id != x.parentId.value {
          assert t[j] == s[j + 1];
        }
      }
    }
  }

  /** Dropping nodes keeps the invariant: it is what `deleteNode`'s filter does. */
  lemma {:induction false} ParentsPrecedeFilter(s: seq<MindNode>, p: MindNode -> bool)
    requires ParentsPrecede(s)
    ensures ParentsPrecede(Filter(s, p))
    decreases |s|
  {
    if s != [] {
      assert s == [s[0]] + s[1..];
      ParentsPrecedeCons(s[0], s[1..]);
      ParentsPrecedeFilter(s[1..], p);
      var rest := Filter(s[1..], p);
      if p(s[0]) {
        assert Filter(s, p) == [s[0]] + rest;
        assert HeadFits(s[0], rest);
        ParentsPrecedeCons(s[0], rest);
      } else {
        assert Filter(s, p) == rest;
      }
    }
  }

  /** Appending a node whose id no existing node refers to keeps the invariant. */
  lemma ParentsPrecedeAppend(nodes: seq<MindNode>, n: MindNode)
    requires ParentsPrecede(nodes)
    requires n.parentId != Some(n.id)
    requires forall i :: 0 <= i < |nodes| ==> nodes[i].parentId != Some(n.id)
    ensures ParentsPrecede(nodes + [n])
  {
    var s := nodes + [n];
    forall i, j | 0 <= i <= j < |s| && s[i].parentId.Some?
      ensures s[i].parentId.value != s[j].id
    {
      if j < |nodes| {
        assert s[i] == nodes[i] && s[j] == nodes[j];
      } else if i < |nodes| {
        assert s[i] == nodes[i] && s[j] == n;
      }
    }
  }

  // ---------------------------------------------------------------- the delete cascade

  /** `getAllDescIds(id, nodes)`: `id` followed, child by child in list order, by the ids of each
      child's subtree. The source recurses without a bound; here each level spends one unit of
      `fuel`, and `None` stands for a recursion the fuel cannot finish (one that, on a list
      with a parent cycle, never ends). */
  function DescIds(nodes: seq<MindNode>, id: NodeId, fuel: nat): (r: Option<seq<NodeId>>)
    ensures r.Some? ==> |r.value| > 0 && r.value[0] == id
    decreases fuel, 0
  {
    if fuel == 0 then None
    else match DescList(nodes, Children(nodes, Some(id)), fuel - 1)
      case None => None
      case Some(rest) => Some([id] + rest)
  }

  /** `children.flatMap((c) => getAllDescIds(c.id, nodes))`. */
  function DescList(nodes: seq<MindNode>, cs: seq<MindNode>, fuel: nat): Option<seq<NodeId>>
    decreases fuel, 1, |cs|
  {
    if cs == [] then Some([])
    else match (DescIds(nodes, cs[0].id, fuel), DescList(nodes, cs[1..], fuel))
      case (Some(a), Some(b)) => Some(a + b)
      case _ => None
  }

  /** The fuel `deleteNode` is given: one more level than there are nodes. */
  function Cascade(nodes: seq<MindNode>, id: NodeId): Option<seq<NodeId>>
  {
    DescIds(nodes, id, |nodes| + 1)
  }

  /** Every child of a node whose id is in `ids` has its own id in `ids`. */
  predicate ClosedUnderChildren(nodes: seq<MindNode>, ids: set<NodeId>)
  {
    forall j :: 0 <= j < |nodes| && nodes[j].parentId.Some? && nodes[j].parentId.value in ids ==> nodes[j].id in ids
  }

  function Elems(s: seq<NodeId>): set<NodeId>
  {
    set i | 0 <= i < |s| :: s[i]
  }

  /** The cascade collects a set closed under taking children. */
  lemma {:induction false} DescIdsClosed(nodes: seq<MindNode>, id: NodeId, fuel: nat)
    requires DescIds(nodes, id, fuel).Some?
    ensures ClosedUnderChildren(nodes, Elems(DescIds(nodes, id, fuel).value))
    decreases fuel, 0
  {
    var cs := Children(nodes, Some(id));
    var rest := DescList(nodes, cs, fuel - 1).value;
    var ids := DescIds(nodes, id, fuel).value;
    DescListClosed(nodes, cs, fuel - 1);
    assert ids == [id] + rest;
    ElemsAppend([id], rest);
    assert Elems([id]) == {id};
  }

  /** The ids of a concatenation are the ids of its parts. */
  lemma ElemsAppend(a: seq<NodeId>, b: seq<NodeId>)
    ensures Elems(a + b) == Elems(a) + Elems(b)
  {
    var l := a + b;
    forall x | x in Elems(l) ensures x in Elems(a) + Elems(b) {
      var i :| 0 <= i < |l| && l[i] == x;
      if i >= |a| { assert x == b[i - |a|]; }
    }
    forall x | x in Elems(a) + Elems(b) ensures x in Elems(l) {
      if x in Elems(a) {
        var i :| 0 <= i < |a| && a[i] == x;
        assert l[i] == x;
      } else {
        var i :| 0 <= i < |b| && b[i] == x;
        assert l[|a| + i] == x;
      }
    }
  }

  /** The cascade over a list of children holds each child's id and is closed under children. */
  lemma {:induction false} DescListClosed(nodes: seq<MindNode>, cs: seq<MindNode>, fuel: nat)
    requires DescList(nodes, cs, fuel).Some?
    requires forall i :: 0 <= i < |cs| ==> cs[i] in nodes
    ensures forall i :: 0 <= i < |cs| ==> cs[i].id in Elems(DescList(nodes, cs, fuel).value)
    ensures ClosedUnderChildren(nodes, Elems(DescList(nodes, cs, fuel).value))
    decreases fuel, 1, |cs|
  {
    if cs != [] {
      var a := DescIds(nodes, cs[0].id, fuel).value;
      var b := DescList(nodes, cs[1..], fuel).value;
      DescIdsClosed(nodes, cs[0].id, fuel);
      DescListClosed(nodes, cs[1..], fuel);
      var l := a + b;
      ElemsAppend(a, b);
      assert a[0] == cs[0].id;
      forall i | 1 <= i < |cs| ensures cs[i].id in Elems(l) {
        assert cs[i] == cs[1..][i - 1];
      }
    }
  }

  /** The cascade collects nothing beyond what taking children forces: every set that holds `id`
      and is closed under children holds all of it. */
  lemma {:induction false} DescIdsLeast(nodes: seq<MindNode>, id: NodeId, fuel: nat, k: set<NodeId>)
    requires DescIds(nodes, id, fuel).Some?
    requires id in k && ClosedUnderChildren(nodes, k)
    ensures Elems(DescIds(nodes, id, fuel).value) <= k
    decreases fuel, 0
  {
    var cs := Children(nodes, Some(id));
    forall i | 0 <= i < |cs| ensures cs[i].id in k {
      var j :| 0 <= j < |nodes| && nodes[j] == cs[i];
    }
    DescListLeast(nodes, cs, fuel - 1, k);
    var rest := DescList(nodes, cs, fuel - 1).value;
    var ids := DescIds(nodes, id, fuel).value;
    forall x | x in Elems(ids) ensures x in k {
      var i :| 0 <= i < |ids| && ids[i] == x;
      if i > 0 { assert x == rest[i - 1] && x in Elems(rest); }
    }
  }

  lemma {:induction false} DescListLeast(nodes: seq<MindNode>, cs: seq<MindNode>, fuel: nat, k: set<NodeId>)
    requires DescList(nodes, cs, fuel).Some?
    requires forall i :: 0 <= i < |cs| ==> cs[i].id in k
    requires ClosedUnderChildren(nodes, k)
    ensures Elems(DescList(nodes, cs, fuel).value) <= k
    decreases fuel, 1, |cs|
  {
    if cs != [] {
      var a := DescIds(nodes, cs[0].id, fuel).value;
      var b := DescList(nodes, cs[1..], fuel).value;
      DescIdsLeast(nodes, cs[0].id, fuel, k);
      forall i | 0 <= i < |cs[1..]| ensures cs[1..][i].id in k {
        assert cs[1..][i] == cs[i + 1];
      }
      DescListLeast(nodes, cs[1..], fuel, k);
      var l := a + b;
      forall x | x in Elems(l) ensures x in k {
        var i :| 0 <= i < |l| && l[i] == x;
        if i < |a| { assert x == a[i] && x in Elems(a); } else { assert x == b[i - |a|] && x in Elems(b); }
      }
    }
  }

  /** Every node of `cs` sits at a position of `nodes` at most `fuel` places from the end. */
  predicate WithinFuel(nodes: seq<MindNode>, cs: seq<MindNode>, fuel: nat)
  {
    forall i :: 0 <= i < |cs| ==> exists j :: 0 <= j < |nodes| && nodes[j] == cs[i] && |nodes| - j <= fuel
  }

  /** Under the invariant the fuel suffices: each child sits strictly after its parent, so a
      subtree rooted at position `j` is at most `|nodes| - j` levels deep. */
  lemma {:induction false} DescIdsEnough(nodes: seq<MindNode>, id: NodeId, fuel: nat, j: int)
    requires ParentsPrecede(nodes)
    requires -1 <= j < |nodes| && |nodes| - j <= fuel
    requires 0 <= j ==> nodes[j].id == id
    ensures DescIds(nodes, id, fuel).Some?
    decreases fuel, 0
  {
    var cs := Children(nodes, Some(id));
    forall i | 0 <= i < |cs|
      ensures exists k :: 0 <= k < |nodes| && nodes[k] == cs[i] && |nodes| - k <= fuel - 1
    {
      var k :| 0 <= k < |nodes| && nodes[k] == cs[i];
      assert j < k;
    }
    DescListEnough(nodes, cs, fuel - 1);
  }

  lemma {:induction false} DescListEnough(nodes: seq<MindNode>, cs: seq<MindNode>, fuel: nat)
    requires ParentsPrecede(nodes)
    requires WithinFuel(nodes, cs, fuel)
    ensures DescList(nodes, cs, fuel).Some?
    decreases fuel, 1, |cs|
  {
    if cs != [] {
      var j :| 0 <= j < |nodes| && nodes[j] == cs[0] && |nodes| - j <= fuel;
      DescIdsEnough(nodes, cs[0].id, fuel, j);
      assert WithinFuel(nodes, cs[1..], fuel) by {
        forall i | 0 <= i < |cs[1..]|
          ensures exists k :: 0 <= k < |nodes| && nodes[k] == cs[1..][i] && |nodes| - k <= fuel
        {
          assert cs[1..][i] == cs[i + 1];
        }
      }
      DescListEnough(nodes, cs[1..], fuel);
    }
  }

  /** On a list that keeps the invariant, `deleteNode`'s cascade always finishes. */
  lemma CascadeFinishes(nodes: seq<MindNode>, id: NodeId)
    requires ParentsPrecede(nodes)
    ensures Cascade(nodes, id).Some?
  {
    DescIdsEnough(nodes, id, |nodes| + 1, -1);
  }

  function IdNotIn(ids: seq<NodeId>): MindNode -> bool
  {
    (n: MindNode) => n.id !in ids
  }

  /** `nodes.filter((n) => !ids.includes(n.id))`. */
  function RemoveIds(nodes: seq<MindNode>, ids: seq<NodeId>): seq<MindNode>
  {
    Filter(nodes, IdNotIn(ids))
  }

  /** What `deleteNode` leaves of a list: exactly the nodes outside the cascade, in their order,
      none of them a child of a removed node; the invariant survives. */
  lemma DeleteLeaves(nodes: seq<MindNode>, id: NodeId)
    requires Cascade(nodes, id).Some?
    ensures var ids := Cascade(nodes, id).value;
            var r := RemoveIds(nodes, ids);
            && id in ids
            && Subseq(r, nodes)
            && (forall i :: 0 <= i < |r| ==> r[i].id !in ids)
            && (forall j :: 0 <= j < |nodes| && nodes[j].id !in ids ==> nodes[j] in r)
            && (forall i :: 0 <= i < |r| && r[i].parentId.Some? ==> r[i].parentId.value !in ids)
            && (ParentsPrecede(nodes) ==> ParentsPrecede(r))
  {
    var ids := Cascade(nodes, id).value;
    var r := RemoveIds(nodes, ids);
    FilterIsSubseq(nodes, IdNotIn(ids));
    DescIdsClosed(nodes, id, |nodes| + 1);
    forall i | 0 <= i < |r| && r[i].parentId.Some? ensures r[i].parentId.value !in ids {
      var j :| 0 <= j < |nodes| && nodes[j] == r[i];
      assert r[i].parentId.value in ids <==> r[i].parentId.value in Elems(ids);
    }
    if ParentsPrecede(nodes) {
      ParentsPrecedeFilter(nodes, IdNotIn(ids));
    }
  }

  // ---------------------------------------------------------------- update

  /** The `nodes.map(...)` of `updateNode`: every node whose id is `id` gets the patch merged in and
      `updatedAt` set to the current time, which wins over an `updatedAt` in the patch. */
  function UpdateForest(nodes: seq<MindNode>, id: string, p: NodePatch, stamp: Timestamp): seq<MindNode>
  {
    seq(|nodes|, i requires 0 <= i < |nodes| =>
      if nodes[i].id == id then ApplyPatch(nodes[i], p).(updatedAt := stamp) else nodes[i])
  }

  /** `updateNode` keeps the length and order of the list and every node with another id; a node
      with the id carries the patch's fields and the new time, and keeps every other field. */
  lemma UpdateForestEffect(nodes: seq<MindNode>, id: string, p: NodePatch, stamp: Timestamp)
    ensures var r := UpdateForest(nodes, id, p, stamp);
            && |r| == |nodes|
            && (forall i :: 0 <= i < |nodes| && nodes[i].id != id ==> r[i] == nodes[i])
            && (forall i :: 0 <= i < |nodes| && nodes[i].id == id ==>
                  Agrees(r[i], p.(updatedAt := None)) && r[i].updatedAt == stamp
                  && KeepsUnset(nodes[i], r[i], p.(updatedAt := Some(stamp)))
                  && (Agrees(nodes[i], p.(updatedAt := None)) ==> r[i] == nodes[i].(updatedAt := stamp)))
  {
    var r := UpdateForest(nodes, id, p, stamp);
    forall i | 0 <= i < |nodes| && nodes[i].id == id
      ensures Agrees(nodes[i], p.(updatedAt := None)) ==> r[i] == nodes[i].(updatedAt := stamp)
    {
      ApplyPatchNoop(nodes[i].(updatedAt := stamp), p.(updatedAt := None));
    }
  }

  /** An unknown id changes nothing. */
  lemma {:induction false} UpdateUnknownId(nodes: seq<MindNode>, id: string, p: NodePatch, stamp: Timestamp)
    requires forall i :: 0 <= i < |nodes| ==> nodes[i].id != id
    ensures UpdateForest(nodes, id, p, stamp) == nodes
  {
  }

  /** Repeating an update with the same patch and time is the update once, as long as the patch
      does not change the id it was addressed by. */
  lemma UpdateIdempotent(nodes: seq<MindNode>, id: string, p: NodePatch, stamp: Timestamp)
    requires p.id.None?
    ensures UpdateForest(UpdateForest(nodes, id, p, stamp), id, p, stamp) == UpdateForest(nodes, id, p, stamp)
  {
    var once := UpdateForest(nodes, id, p, stamp);
    forall i | 0 <= i < |nodes| && nodes[i].id == id
      ensures ApplyPatch(once[i], p).(updatedAt := stamp) == once[i]
    {
      ApplyPatchNoop(once[i], p.(updatedAt := Some(stamp)));
    }
  }

  /** An update that names neither `id` nor `parentId` keeps the acyclicity invariant. */
  lemma UpdateKeepsParentsPrecede(nodes: seq<MindNode>, id: string, p: NodePatch, stamp: Timestamp)
    requires ParentsPrecede(nodes)
    requires p.id.None? && p.parentId.None?
    ensures ParentsPrecede(UpdateForest(nodes, id, p, stamp))
  {
    var r := UpdateForest(nodes, id, p, stamp);
    assert forall i :: 0 <= i < |nodes| ==> r[i].id == nodes[i].id && r[i].parentId == nodes[i].parentId;
  }

  // ---------------------------------------------------------------- add

  /** `parentId ? nodes.find((n) => n.id === parentId) : null`. */
  function ParentOf(nodes: seq<MindNode>, parentId: Option<NodeId>): Option<MindNode>
  {
    if parentId.Some? then Find(nodes, parentId.value) else None
  }

  /** The defaults `addNode` writes before the overrides are spread over them. The colour is
      `overrides.color || parent?.color || DEFAULT_COLORS[pick]`, `pick` being the random palette
      index; the position is 240 to the right of the parent (or of the origin, when there is no
      parent) and 40 further down for each existing sibling; every optional field is absent. */
  function NewDefaults(nodes: seq<MindNode>, parentId: Option<NodeId>, ov: NodePatch, id: NodeId,
                       pick: nat, stamp: Timestamp): (b: MindNode)
    requires pick < |DEFAULT_COLORS|
    ensures b.id == id && b.parentId == parentId && b.caption == "New Node" && !b.collapsed
    ensures b.createdAt == stamp && b.updatedAt == stamp
    ensures b.status.None? && b.priority.None? && b.deadline.None? && b.estimatedTime.None?
            && b.timeSlot.None? && b.completed.None? && b.targetValue.None? && b.currentValue.None?
            && b.notes.None? && b.tags.None? && b.isDumped.None? && b.isRoot.None?
    ensures ov.color.None? ==>
              var parent := ParentOf(nodes, parentId);
              if parent.Some? && parent.value.color != "" then b.color == parent.value.color
              else b.color == DEFAULT_COLORS[pick]
    ensures ov.position.None? ==>
              var parent := ParentOf(nodes, parentId);
              var base := if parent.Some? then parent.value.position else Position(0.0, 0.0);
              b.position == Position(base.x + (if parentId.Some? then 240.0 else 0.0),
                                     base.y + 40.0 * (|Children(nodes, parentId)| as real))
  {
    var parent := ParentOf(nodes, parentId);
    var color :=
      if ov.color.Some? && ov.color.value != "" then ov.color.value
      else if parent.Some? && parent.value.color != "" then parent.value.color
      else DEFAULT_COLORS[pick];
    var spread := |Children(nodes, parentId)|;
    var parentPos := if parent.Some? then parent.value.position else Position(0.0, 0.0);
    var position :=
      if ov.position.Some? then ov.position.value
      else Position(parentPos.x + (if parentId.Some? then 240.0 else 0.0),
                    parentPos.y + ((spread * 80 - spread * 40) as real));
    MindNode(id, parentId, "New Node", color, position, false,
             None, None, None, None, None, None, None, None, None, None, None,
             stamp, stamp, None)
  }

  /** The node `addNode` appends: the defaults, then every field of the overrides on top. */
  function NewNode(nodes: seq<MindNode>, parentId: Option<NodeId>, ov: NodePatch, id: NodeId,
                   pick: nat, stamp: Timestamp): (r: MindNode)
    requires pick < |DEFAULT_COLORS|
    ensures Agrees(r, ov)
    ensures ov.id.None? ==> r.id == id
    ensures ov.parentId.None? ==> r.parentId == parentId
    ensures ov.caption.None? ==> r.caption == "New Node"
    ensures ov.collapsed.None? ==> !r.collapsed
    ensures ov.createdAt.None? ==> r.createdAt == stamp
    ensures ov.updatedAt.None? ==> r.updatedAt == stamp
    ensures ov.color.None? ==>
              var parent := ParentOf(nodes, parentId);
              if parent.Some? && parent.value.color != "" then r.color == parent.value.color
              else r.color == DEFAULT_COLORS[pick]
    ensures ov.position.None? ==>
              var parent := ParentOf(nodes, parentId);
              var base := if parent.Some? then parent.value.position else Position(0.0, 0.0);
              r.position == Position(base.x + (if parentId.Some? then 240.0 else 0.0),
                                     base.y + 40.0 * (|Children(nodes, parentId)| as real))
    ensures ov.status.None? ==> r.status.None?
    ensures ov.priority.None? ==> r.priority.None?
    ensures ov.deadline.None? ==> r.deadline.None?
    ensures ov.estimatedTime.None? ==> r.estimatedTime.None?
    ensures ov.timeSlot.None? ==> r.timeSlot.None?
    ensures ov.completed.None? ==> r.completed.None?
    ensures ov.targetValue.None? ==> r.targetValue.None?
    ensures ov.currentValue.None? ==> r.currentValue.None?
    ensures ov.notes.None? ==> r.notes.None?
    ensures ov.tags.None? ==> r.tags.None?
    ensures ov.isDumped.None? ==> r.isDumped.None?
    ensures ov.isRoot.None? ==> r.isRoot.None?
  {
    ApplyPatch(NewDefaults(nodes, parentId, ov, id, pick, stamp), ov)
  }

  /** The colour `addNode` gives when the overrides have none is the parent's or a palette colour. */
  lemma NewNodeColorSource(nodes: seq<MindNode>, parentId: Option<NodeId>, ov: NodePatch, id: NodeId,
                           pick: nat, stamp: Timestamp)
    requires pick < |DEFAULT_COLORS|
    requires ov.color.None?
    ensures var c := NewNode(nodes, parentId, ov, id, pick, stamp).color;
            c in DEFAULT_COLORS || exists j :: 0 <= j < |nodes| && Some(nodes[j].id) == parentId && nodes[j].color == c
  {
    var parent := ParentOf(nodes, parentId);
    if parent.Some? && parent.value.color != "" {
      var j :| 0 <= j < |nodes| && nodes[j] == parent.value;
    }
  }

  /** Appending the new node keeps the acyclicity invariant when its generated id is fresh and the
      overrides leave `id` and `parentId` alone. */
  lemma AddKeepsParentsPrecede(nodes: seq<MindNode>, parentId: Option<NodeId>, ov: NodePatch, id: NodeId,
                               pick: nat, stamp: Timestamp)
    requires pick < |DEFAULT_COLORS|
    requires ParentsPrecede(nodes)
    requires ov.id.None? && ov.parentId.None? && parentId != Some(id)
    requires forall i :: 0 <= i < |nodes| ==> nodes[i].parentId != Some(id)
    ensures ParentsPrecede(nodes + [NewNode(nodes, parentId, ov, id, pick, stamp)])
  {
    ParentsPrecedeAppend(nodes, NewNode(nodes, parentId, ov, id, pick, stamp));
  }

  // ---------------------------------------------------------------- recent list

  function Other(id: string): string -> bool
  {
    (x: string) => x != id
  }

  /** The length `recentNodeIds` is cut to. */
  const RECENT_LIMIT := 10

  /** `[id, ...recent.filter((i) => i !== id)].slice(0, 10)`. */
  function PushRecent(recent: seq<string>, id: string): seq<string>
  {
    Take([id] + Filter(recent, Other(id)), RECENT_LIMIT)
  }

  /** The new list starts with `id`, holds it once, is at most ten long, and continues with the old
      list without `id`, in its order, cut to nine entries. */
  lemma PushRecentShape(recent: seq<string>, id: string)
    ensures var r := PushRecent(recent, id);
            && 1 <= |r| <= RECENT_LIMIT && r[0] == id
            && (forall i :: 1 <= i < |r| ==> r[i] != id)
            && r[1..] == Take(Filter(recent, Other(id)), RECENT_LIMIT - 1)
            && Subseq(r[1..], recent)
  {
    var f := Filter(recent, Other(id));
    var r := PushRecent(recent, id);
    assert r[1..] == Take(f, RECENT_LIMIT - 1);
    FilterIsSubseq(recent, Other(id));
    TakeIsSubseq(f, RECENT_LIMIT - 1);
    SubseqTrans(r[1..], f, recent);
  }

  lemma {:induction false} TakeIsSubseq<T>(s: seq<T>, n: nat)
    ensures Subseq(Take(s, n), s)
    decreases |s|
  {
    if n < |s| {
      PrefixIsSubseq(s, n);
    } else {
      PrefixIsSubseq(s, |s|);
      assert s[..|s|] == s;
    }
  }

  lemma {:induction false} PrefixIsSubseq<T>(s: seq<T>, n: nat)
    requires n <= |s|
    ensures Subseq(s[..n], s)
    decreases |s|
  {
    if n > 0 {
      PrefixIsSubseq(s[1..], n - 1);
      assert s[..n][1..] == s[1..][..n - 1];
    }
  }

  /** A list without repetitions stays without repetitions. */
  lemma PushRecentNoDup(recent: seq<string>, id: string)
    requires NoDup(recent)
    ensures NoDup(PushRecent(recent, id))
  {
    var r := PushRecent(recent, id);
    var f := Filter(recent, Other(id));
    PushRecentShape(recent, id);
    FilterNoDup(recent, Other(id));
    forall i, j | 0 <= i < j < |r| ensures r[i] != r[j] {
      if i > 0 {
        assert r[i] == f[i - 1] && r[j] == f[j - 1];
      }
    }
  }

  lemma {:induction false} FilterNoDup<T>(s: seq<T>, p: T -> bool)
    requires NoDup(s)
    ensures NoDup(Filter(s, p))
    decreases |s|
  {
    if s != [] {
      FilterNoDup(s[1..], p);
      var rest := Filter(s[1..], p);
      if p(s[0]) {
        var r := Filter(s, p);
        assert r == [s[0]] + rest;
        forall j | 0 <= j < |rest| ensures rest[j] != s[0] {
          var k :| 0 <= k < |s[1..]| && s[1..][k] == rest[j];
          assert s[k + 1] == rest[j];
        }
        forall i, j | 0 <= i < j < |r| ensures r[i] != r[j] {
          if i == 0 { assert r[j] == rest[j - 1]; } else { assert r[i] == rest[i - 1] && r[j] == rest[j - 1]; }
        }
      }
    }
  }

  /** Touching the same node twice in a row leaves the list as touching it once. */
  lemma PushRecentIdempotent(recent: seq<string>, id: string)
    ensures PushRecent(PushRecent(recent, id), id) == PushRecent(recent, id)
  {
    var r := PushRecent(recent, id);
    PushRecentShape(recent, id);
    FilterAll(r[1..], Other(id));
    assert Filter(r, Other(id)) == r[1..];
    assert [id] + r[1..] == r;
  }
}
