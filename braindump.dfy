/** The brain-dump panel of `components/modes/BrainDumpPanel.tsx`: turning pasted text into one
    top-level node per line, counting the unparented nodes, and the auto-grouping that recolours
    the dumped nodes by category and moves each colour group to its own place. The random dump
    positions and the circle layout of the groups are floating point and randomness; they come
    in as arguments (`positions`, `place`). */
module BrainDump {
  import opened Wrappers
  import opened Seqs
  import opened Text
  import opened Types
  import opened Forest
  import opened Utils
  import opened Store

  // ---------------------------------------------------------------- counting

  /** `dumpedCount`: the nodes without a parent. */
  function DumpedCount(nodes: seq<MindNode>): (c: nat)
    ensures c <= |nodes|
    ensures c == 0 <==> forall i :: 0 <= i < |nodes| ==> nodes[i].parentId.Some?
  {
    var r := Children(nodes, None);
    assert |r| > 0 ==> r[0] in nodes;
    |r|
  }

  // ---------------------------------------------------------------- the dump

  function TrimEach(ls: seq<string>): seq<string>
  {
    seq(|ls|, i requires 0 <= i < |ls| => Trim(ls[i]))
  }

  function NonEmpty(): string -> bool
  {
    (s: string) => s != ""
  }

  /** `text.split('\n').map((l) => l.trim()).filter(Boolean)`. */
  function DumpLines(text: string): (r: seq<string>)
    ensures |r| <= |SplitLines(text)|
  {
    Filter(TrimEach(SplitLines(text)), NonEmpty())
  }

  /** The dumped lines are non-empty, hold no line break and have no white space at either end,
      and there are none exactly when every line of the text is blank. */
  lemma DumpLinesClean(text: string)
    ensures var ls, r := SplitLines(text), DumpLines(text);
            && (forall i :: 0 <= i < |r| ==> r[i] != "" && '\n' !in r[i] && Trim(r[i]) == r[i])
            && (r == [] <==> AllBlank(ls))
  {
    DumpLinesFacts(SplitLines(text));
  }

  /** Every line is white space only. */
  predicate AllBlank(ls: seq<string>)
  {
    forall i :: 0 <= i < |ls| ==> AllSpace(ls[i])
  }

  lemma DumpLinesFacts(ls: seq<string>)
    requires forall i :: 0 <= i < |ls| ==> '\n' !in ls[i]
    ensures var r := Filter(TrimEach(ls), NonEmpty());
            && (forall i :: 0 <= i < |r| ==> '\n' !in r[i] && Trim(r[i]) == r[i])
            && (r == [] <==> AllBlank(ls))
  {
    var t := TrimEach(ls);
    var r := Filter(t, NonEmpty());
    forall i | 0 <= i < |r| ensures '\n' !in r[i] && Trim(r[i]) == r[i] {
      TrimmedPieceClean(ls, r[i]);
    }
    DumpLinesNone(ls);
  }

  /** A trimmed piece of a line has no line break and is its own trim. */
  lemma TrimmedPieceClean(ls: seq<string>, x: string)
    requires forall i :: 0 <= i < |ls| ==> '\n' !in ls[i]
    requires x in TrimEach(ls)
    ensures '\n' !in x && Trim(x) == x
  {
    var j :| 0 <= j < |ls| && TrimEach(ls)[j] == x;
    TrimKeepsOut(ls[j], '\n');
    TrimIdempotent(ls[j]);
  }

  /** No line survives exactly when every line is blank. */
  lemma DumpLinesNone(ls: seq<string>)
    ensures Filter(TrimEach(ls), NonEmpty()) == [] <==> AllBlank(ls)
  {
    var t := TrimEach(ls);
    var r := Filter(t, NonEmpty());
    if r == [] {
      forall i | 0 <= i < |ls| ensures AllSpace(ls[i]) {
        assert t[i] == Trim(ls[i]);
        assert t[i] !in r;
      }
    } else {
      assert r[0] in t;
      var j :| 0 <= j < |t| && t[j] == r[0];
      assert Trim(ls[j]) != "";
    }
  }

  /** A character the text lacks is missing from the trimmed text too. */
  lemma TrimKeepsOut(s: string, c: char)
    requires c !in s
    ensures c !in Trim(s)
  {
    var r := Trim(s);
    var k := StartFrom(s, 0);
    forall i | 0 <= i < |r| ensures r[i] != c {
      assert r[i] == s[k + i];
    }
  }

  /** The colour a dumped node starts with. */
  const DUMP_COLOR := "#6b7280"

  /** The overrides `handleDump` passes to `addNode` for one line. */
  function DumpPatch(line: string, position: Position): (p: NodePatch)
    ensures p.id.None? && p.parentId.None?
    ensures p.caption == Some(line) && p.isDumped == Some(true) && p.color == Some(DUMP_COLOR) && p.position == Some(position)
    ensures p.(caption := None, isDumped := None, color := None, position := None) == EmptyPatch
  {
    EmptyPatch.(caption := Some(line), isDumped := Some(true), color := Some(DUMP_COLOR), position := Some(position))
  }

  /** The node one line becomes. Its colour and position are given, so it does not depend on the
      forest it is added to or on the palette pick. */
  function DumpNode(line: string, id: NodeId, position: Position, stamp: Timestamp): (n: MindNode)
    ensures n.id == id && n.parentId == None && n.caption == line && n.isDumped == Some(true)
    ensures n.color == DUMP_COLOR && n.position == position && !n.collapsed
    ensures n.createdAt == stamp && n.updatedAt == stamp
  {
    NewNode([], None, DumpPatch(line, position), id, 0, stamp)
  }

  lemma DumpNodeIndependent(nodes: seq<MindNode>, line: string, id: NodeId, position: Position, pick: nat, stamp: Timestamp)
    requires pick < |DEFAULT_COLORS|
    ensures NewNode(nodes, None, DumpPatch(line, position), id, pick, stamp) == DumpNode(line, id, position, stamp)
  {
  }

  /** The nodes a dump appends, in line order. */
  function DumpNodes(lines: seq<string>, ids: seq<NodeId>, positions: seq<Position>, stamp: Timestamp): (r: seq<MindNode>)
    requires |ids| >= |lines| && |positions| >= |lines|
    ensures |r| == |lines|
  {
    seq(|lines|, i requires 0 <= i < |lines| => DumpNode(lines[i], ids[i], positions[i], stamp))
  }

  /** The recent list after `addRecentNode` for each id in turn. */
  function PushAll(recent: seq<string>, ids: seq<string>): seq<string>
    decreases |ids|
  {
    if ids == [] then recent else PushRecent(PushAll(recent, ids[..|ids| - 1]), ids[|ids| - 1])
  }

  /** After a dump the last line's id heads the recent list, which stays within its limit. */
  lemma PushAllShape(recent: seq<string>, ids: seq<string>)
    requires ids != []
    ensures var r := PushAll(recent, ids);
            1 <= |r| <= RECENT_LIMIT && r[0] == ids[|ids| - 1]
  {
    PushRecentShape(PushAll(recent, ids[..|ids| - 1]), ids[|ids| - 1]);
  }

  /** The store's data after the first `i` lines of a dump that started from `d0` in mode `m`. */
  function DumpState(d0: MindFlowData, m: AppMode, lines: seq<string>, ids: seq<NodeId>, positions: seq<Position>,
                     stamp: Timestamp, i: nat): (d: MindFlowData)
    requires i <= |lines| <= |ids| && |lines| <= |positions|
    ensures d.Forest(m) == d0.Forest(m) + DumpNodes(lines[..i], ids, positions, stamp)
  {
    d0.WithForest(m, d0.Forest(m) + DumpNodes(lines[..i], ids, positions, stamp))
      .(recentNodeIds := PushAll(d0.recentNodeIds, ids[..i]))
  }

  lemma DumpNodesSnoc(lines: seq<string>, ids: seq<NodeId>, positions: seq<Position>, stamp: Timestamp, i: nat)
    requires i < |lines| <= |ids| && |lines| <= |positions|
    ensures DumpNodes(lines[..i + 1], ids, positions, stamp)
         == DumpNodes(lines[..i], ids, positions, stamp) + [DumpNode(lines[i], ids[i], positions[i], stamp)]
  {
  }

  /** One more line added: the state after `i` lines becomes the state after `i + 1`. */
  lemma DumpStateStep(d0: MindFlowData, m: AppMode, lines: seq<string>, ids: seq<NodeId>, positions: seq<Position>,
                      stamp: Timestamp, i: nat)
    requires i < |lines| <= |ids| && |lines| <= |positions|
    ensures var d := DumpState(d0, m, lines, ids, positions, stamp, i);
            d.WithForest(m, d.Forest(m) + [DumpNode(lines[i], ids[i], positions[i], stamp)])
              .(recentNodeIds := PushRecent(d.recentNodeIds, ids[i]))
            == DumpState(d0, m, lines, ids, positions, stamp, i + 1)
  {
    var x := DumpNode(lines[i], ids[i], positions[i], stamp);
    DumpNodesSnoc(lines, ids, positions, stamp, i);
    AppendAssoc(d0.Forest(m), DumpNodes(lines[..i], ids, positions, stamp), [x]);
    assert ids[..i + 1][..i] == ids[..i];
  }

  /** What `addNode` does with line `i` takes the state after `i` lines to the state after `i + 1`. */
  lemma AddDumpLine(d0: MindFlowData, m: AppMode, lines: seq<string>, ids: seq<NodeId>, positions: seq<Position>,
                    pick: nat, stamp: Timestamp, i: nat)
    requires i < |lines| <= |ids| && |lines| <= |positions| && pick < |DEFAULT_COLORS|
    ensures var d := DumpState(d0, m, lines, ids, positions, stamp, i);
            d.WithForest(m, d.Forest(m) + [NewNode(d.Forest(m), None, DumpPatch(lines[i], positions[i]), ids[i], pick, stamp)])
              .(recentNodeIds := PushRecent(d.recentNodeIds, ids[i]))
            == DumpState(d0, m, lines, ids, positions, stamp, i + 1)
  {
    var d := DumpState(d0, m, lines, ids, positions, stamp, i);
    DumpNodeIndependent(d.Forest(m), lines[i], ids[i], positions[i], pick, stamp);
    DumpStateStep(d0, m, lines, ids, positions, stamp, i);
  }

  /** `lines.forEach((line, i) => … addNode(null, …))`: one `addNode` per line, in order. The
      generated ids and the random positions are supplied; the timers only space the calls out. */
  method DumpAll(st: MindFlowStore, lines: seq<string>, ids: seq<NodeId>, positions: seq<Position>, pick: nat, stamp: Timestamp)
    requires |lines| <= |ids| && |lines| <= |positions|
    requires pick < |DEFAULT_COLORS|
    modifies st
    ensures st.data == DumpState(old(st.data), old(st.activeMode), lines, ids, positions, stamp, |lines|)
    ensures st.activeMode == old(st.activeMode) && st.searchQuery == old(st.searchQuery) && st.filterState == old(st.filterState)
    ensures |lines| == 0 ==> st.selectedNodeId == old(st.selectedNodeId) && st.editingNodeId == old(st.editingNodeId)
    ensures |lines| > 0 ==> st.selectedNodeId == Some(ids[|lines| - 1]) && st.editingNodeId == Some(ids[|lines| - 1])
  {
    ghost var d0 := st.data;
    ghost var m := st.activeMode;
    assert DumpState(d0, m, lines, ids, positions, stamp, 0) == d0 by {
      assert lines[..0] == [];
      assert d0.Forest(m) + [] == d0.Forest(m);
      WithForestSame(d0, m);
    }
    for i := 0 to |lines|
      invariant st.activeMode == m && st.searchQuery == old(st.searchQuery) && st.filterState == old(st.filterState)
      invariant st.data == DumpState(d0, m, lines, ids, positions, stamp, i)
      invariant i == 0 ==> st.selectedNodeId == old(st.selectedNodeId) && st.editingNodeId == old(st.editingNodeId)
      invariant i > 0 ==> st.selectedNodeId == Some(ids[i - 1]) && st.editingNodeId == Some(ids[i - 1])
    {
      AddDumpLine(d0, m, lines, ids, positions, pick, stamp, i);
      var id := st.AddNode(None, DumpPatch(lines[i], positions[i]), ids[i], pick, stamp);
    }
  }

  /** `handleDump()`: the non-blank lines of the text, trimmed, each added as an unparented node,
      and the text box cleared after them. Text without such lines changes nothing. */
  method HandleDump(st: MindFlowStore, text: string, ids: seq<NodeId>, positions: seq<Position>, pick: nat, stamp: Timestamp)
    returns (added: nat, newText: string)
    requires |ids| >= |DumpLines(text)| && |positions| >= |DumpLines(text)|
    requires pick < |DEFAULT_COLORS|
    modifies st
    ensures added == |DumpLines(text)|
    ensures added == 0 ==> newText == text
    ensures added > 0 ==> newText == ""
    ensures st.data == old(st.data).WithForest(old(st.activeMode), old(st.GetNodes()) + DumpNodes(DumpLines(text), ids, positions, stamp))
                                    .(recentNodeIds := PushAll(old(st.data.recentNodeIds), ids[..added]))
    ensures st.activeMode == old(st.activeMode) && st.searchQuery == old(st.searchQuery) && st.filterState == old(st.filterState)
    ensures added == 0 ==> st.selectedNodeId == old(st.selectedNodeId) && st.editingNodeId == old(st.editingNodeId)
    ensures added > 0 ==> st.selectedNodeId == Some(ids[added - 1]) && st.editingNodeId == Some(ids[added - 1])
  {
    var lines := DumpLines(text);
    added := |lines|;
    if added == 0 {
      newText := text;
      DumpNothing(st.data, st.activeMode, ids, positions, stamp);
      return;
    }
    ghost var d0, m := st.data, st.activeMode;
    DumpAll(st, lines, ids, positions, pick, stamp);
    DumpStateAll(d0, m, lines, ids, positions, stamp);
    newText := "";
  }

  /** The state after every line: all the lines' nodes appended and all their ids pushed. */
  lemma DumpStateAll(d0: MindFlowData, m: AppMode, lines: seq<string>, ids: seq<NodeId>, positions: seq<Position>,
                     stamp: Timestamp)
    requires |lines| <= |ids| && |lines| <= |positions|
    ensures DumpState(d0, m, lines, ids, positions, stamp, |lines|)
            == d0.WithForest(m, d0.Forest(m) + DumpNodes(lines, ids, positions, stamp))
                 .(recentNodeIds := PushAll(d0.recentNodeIds, ids[..|lines|]))
  {
    assert lines[..|lines|] == lines;
  }

  /** A dump without lines writes back what was there. */
  lemma DumpNothing(d: MindFlowData, m: AppMode, ids: seq<NodeId>, positions: seq<Position>, stamp: Timestamp)
    ensures d.WithForest(m, d.Forest(m) + DumpNodes([], ids, positions, stamp))
             .(recentNodeIds := PushAll(d.recentNodeIds, ids[..0])) == d
  {
    assert DumpNodes([], ids, positions, stamp) == [];
    assert d.Forest(m) + [] == d.Forest(m);
    WithForestSame(d, m);
    assert ids[..0] == [];
  }

  /** Each dumped line adds one unparented node. */
  lemma DumpAddsTopLevel(nodes: seq<MindNode>, lines: seq<string>, ids: seq<NodeId>, positions: seq<Position>, stamp: Timestamp)
    requires |ids| >= |lines| && |positions| >= |lines|
    ensures DumpedCount(nodes + DumpNodes(lines, ids, positions, stamp)) == DumpedCount(nodes) + |lines|
  {
    var added := DumpNodes(lines, ids, positions, stamp);
    FilterAppend(nodes, added, ParentIs(None));
    FilterAll(added, ParentIs(None));
  }

  // ---------------------------------------------------------------- auto-grouping

  function IsDumpedTop(): MindNode -> bool
  {
    (n: MindNode) => n.parentId.None? && n.isDumped == Some(true)
  }

  function ColorIs(c: string): MindNode -> bool
  {
    (n: MindNode) => n.color == c
  }

  /** The group keys in the order `groups` receives them: each colour at its first appearance. */
  function Keys(s: seq<MindNode>): seq<string>
    decreases |s|
  {
    if s == [] then []
    else
      var k := Keys(s[..|s| - 1]);
      if s[|s| - 1].color in k then k else k + [s[|s| - 1].color]
  }

  /** Every colour of the list is a key exactly once, and every key is the colour of some node. */
  lemma {:induction false} KeysMeaning(s: seq<MindNode>)
    ensures NoDup(Keys(s))
    ensures forall i :: 0 <= i < |s| ==> s[i].color in Keys(s)
    ensures forall k :: 0 <= k < |Keys(s)| ==> exists i :: 0 <= i < |s| && s[i].color == Keys(s)[k]
    decreases |s|
  {
    if s != [] {
      var init := s[..|s| - 1];
      KeysMeaning(init);
      var k := Keys(init);
      assert forall i :: 0 <= i < |init| ==> init[i] == s[i];
      if s[|s| - 1].color !in k {
        var r := k + [s[|s| - 1].color];
        forall j | 0 <= j < |r| ensures exists i :: 0 <= i < |s| && s[i].color == r[j] {
          if j < |k| {
            var i :| 0 <= i < |init| && init[i].color == k[j];
            assert s[i] == init[i];
          } else {
            assert s[|s| - 1].color == r[j];
          }
        }
      }
    }
  }

  /** The group of one colour: the nodes of that colour, in list order. */
  function Group(s: seq<MindNode>, c: string): seq<MindNode>
  {
    Filter(s, ColorIs(c))
  }


  /** The keys after one more node. */
  lemma KeysStep(s: seq<MindNode>, i: nat)
    requires i < |s|
    ensures Keys(s[..i + 1]) == if s[i].color in Keys(s[..i]) then Keys(s[..i]) else Keys(s[..i]) + [s[i].color]
  {
    assert s[..i + 1][..i] == s[..i];
  }

  /** A group after one more node. */
  lemma GroupStep(s: seq<MindNode>, i: nat, c: string)
    requires i < |s|
    ensures Group(s[..i + 1], c) == Group(s[..i], c) + (if s[i].color == c then [s[i]] else [])
  {
    FilterLast(s[..i + 1], ColorIs(c));
    assert s[..i + 1][..i] == s[..i];
  }

  /** `keys` and `groups` are what the bucketing loop holds after the nodes of `s`. */
  ghost predicate GroupsOf(s: seq<MindNode>, keys: seq<string>, groups: map<string, seq<MindNode>>)
  {
    && keys == Keys(s)
    && (forall c :: c in groups <==> c in keys)
    && (forall c :: c in groups ==> groups[c] == Group(s, c))
  }

  /** One node more, of a colour already seen: pushed onto that colour's group. */
  lemma GroupsStepSeen(s: seq<MindNode>, i: nat, keys: seq<string>, groups: map<string, seq<MindNode>>)
    requires i < |s| && GroupsOf(s[..i], keys, groups) && s[i].color in groups
    ensures GroupsOf(s[..i + 1], keys, groups[s[i].color := groups[s[i].color] + [s[i]]])
  {
    var n := s[i];
    var g' := groups[n.color := groups[n.color] + [n]];
    KeysStep(s, i);
    forall c | c in g' ensures g'[c] == Group(s[..i + 1], c) {
      GroupStep(s, i, c);
    }
  }

  /** One node more, of a new colour: a group of its own, and its key recorded last. */
  lemma GroupsStepNew(s: seq<MindNode>, i: nat, keys: seq<string>, groups: map<string, seq<MindNode>>)
    requires i < |s| && GroupsOf(s[..i], keys, groups) && s[i].color !in groups
    ensures GroupsOf(s[..i + 1], keys + [s[i].color], groups[s[i].color := [s[i]]])
  {
    var n := s[i];
    var g' := groups[n.color := [n]];
    KeysStep(s, i);
    forall c | c in g' ensures g'[c] == Group(s[..i + 1], c) {
      GroupStep(s, i, c);
      if c == n.color {
        KeysMeaning(s[..i]);
        FilterNone(s[..i], ColorIs(n.color));
      }
    }
  }

  /** `organized.forEach((n) => { (groups[n.color] = groups[n.color] || []).push(n); })`, with the
      insertion order of the keys kept beside the dictionary. */
  method BuildGroups(organized: seq<MindNode>) returns (keys: seq<string>, groups: map<string, seq<MindNode>>)
    ensures keys == Keys(organized)
    ensures forall c :: c in groups <==> c in keys
    ensures forall c :: c in groups ==> groups[c] == Group(organized, c)
  {
    keys := [];
    groups := map[];
    for i := 0 to |organized|
      invariant GroupsOf(organized[..i], keys, groups)
    {
      var n := organized[i];
      if n.color in groups {
        GroupsStepSeen(organized, i, keys, groups);
        groups := groups[n.color := groups[n.color] + [n]];
      } else {
        GroupsStepNew(organized, i, keys, groups);
        keys := keys + [n.color];
        groups := groups[n.color := [n]];
      }
    }
    assert organized[..|organized|] == organized;
  }

  function GroupSizes(s: seq<MindNode>, keys: seq<string>): nat
    decreases |keys|
  {
    if keys == [] then 0 else |Group(s, keys[0])| + GroupSizes(s, keys[1..])
  }

  function Hits(x: string, keys: seq<string>): nat
    decreases |keys|
  {
    if keys == [] then 0 else (if keys[0] == x then 1 else 0) + Hits(x, keys[1..])
  }

  lemma {:induction false} HitsOnce(x: string, keys: seq<string>)
    requires NoDup(keys) && x in keys
    ensures Hits(x, keys) == 1
    decreases |keys|
  {
    if keys[0] == x {
      HitsNone(x, keys[1..]);
    } else {
      HitsOnce(x, keys[1..]);
    }
  }

  lemma {:induction false} HitsNone(x: string, keys: seq<string>)
    requires x !in keys
    ensures Hits(x, keys) == 0
    decreases |keys|
  {
    if keys != [] {
      HitsNone(x, keys[1..]);
    }
  }

  lemma {:induction false} GroupSizesCons(n: MindNode, s: seq<MindNode>, keys: seq<string>)
    ensures GroupSizes([n] + s, keys) == Hits(n.color, keys) + GroupSizes(s, keys)
    decreases |keys|
  {
    if keys != [] {
      GroupSizesCons(n, s, keys[1..]);
      FilterCons(n, s, ColorIs(keys[0]));
    }
  }

  lemma {:induction false} GroupSizesEmpty(keys: seq<string>)
    ensures GroupSizes([], keys) == 0
    decreases |keys|
  {
    if keys != [] {
      GroupSizesEmpty(keys[1..]);
    }
  }

  lemma {:induction false} GroupSizesCover(s: seq<MindNode>, keys: seq<string>)
    requires NoDup(keys)
    requires forall i :: 0 <= i < |s| ==> s[i].color in keys
    ensures GroupSizes(s, keys) == |s|
    decreases |s|
  {
    if s == [] {
      GroupSizesEmpty(keys);
    } else {
      GroupSizesCover(s[1..], keys);
      GroupSizesCons(s[0], s[1..], keys);
      HitsOnce(s[0].color, keys);
      assert [s[0]] + s[1..] == s;
    }
  }

  /** The groups partition the organised nodes: each node is in the group of its own colour and in
      no other, and the group sizes add up to the number of nodes. */
  lemma GroupsPartition(s: seq<MindNode>)
    ensures forall i :: 0 <= i < |s| ==> s[i].color in Keys(s) && s[i] in Group(s, s[i].color)
    ensures forall i, c :: 0 <= i < |s| && s[i] in Group(s, c) ==> c == s[i].color
    ensures GroupSizes(s, Keys(s)) == |s|
  {
    KeysMeaning(s);
    GroupSizesCover(s, Keys(s));
  }

  /** One `updateNode` call of the grouping: the node's id, its new colour and its new place. */
  datatype Move = Move(id: string, color: string, position: Position)

  /** The calls for one group, `gi` of `ng`, in member order; `place` is the circle layout. */
  function GroupMoves(group: seq<MindNode>, gi: nat, ng: nat, place: (nat, nat, nat, nat) -> Position): (r: seq<Move>)
    ensures |r| == |group|
    ensures forall ni :: 0 <= ni < |group| ==> r[ni] == Move(group[ni].id, group[ni].color, place(gi, ng, ni, |group|))
  {
    seq(|group|, ni requires 0 <= ni < |group| => Move(group[ni].id, group[ni].color, place(gi, ng, ni, |group|)))
  }

  /** The calls for the first `n` groups, in key order. */
  function Plan(s: seq<MindNode>, keys: seq<string>, n: nat, place: (nat, nat, nat, nat) -> Position): seq<Move>
    requires n <= |keys|
    decreases n
  {
    if n == 0 then [] else Plan(s, keys, n - 1, place) + GroupMoves(Group(s, keys[n - 1]), n - 1, |keys|, place)
  }

  function MovePatch(m: Move): (p: NodePatch)
    ensures p.id.None? && p.parentId.None?
  {
    ColorPositionPatch(m.color, m.position)
  }

  /** The forest after the calls, one `updateNode` after another. */
  function ApplyMoves(nodes: seq<MindNode>, ms: seq<Move>, stamp: Timestamp): seq<MindNode>
    decreases |ms|
  {
    if ms == [] then nodes
    else
      var m := ms[|ms| - 1];
      UpdateForest(ApplyMoves(nodes, ms[..|ms| - 1], stamp), m.id, MovePatch(m), stamp)
  }

  lemma ApplyMovesSnoc(nodes: seq<MindNode>, moves: seq<Move>, ni: nat, stamp: Timestamp)
    requires ni < |moves|
    ensures ApplyMoves(nodes, moves[..ni + 1], stamp)
         == UpdateForest(ApplyMoves(nodes, moves[..ni], stamp), moves[ni].id, MovePatch(moves[ni]), stamp)
  {
    assert moves[..ni + 1][..ni] == moves[..ni];
  }

  /** The calls of two stretches one after the other. */
  lemma {:induction false} ApplyMovesAppend(nodes: seq<MindNode>, a: seq<Move>, b: seq<Move>, stamp: Timestamp)
    ensures ApplyMoves(nodes, a + b, stamp) == ApplyMoves(ApplyMoves(nodes, a, stamp), b, stamp)
    decreases |b|
  {
    if b == [] {
      assert a + b == a;
    } else {
      var init := b[..|b| - 1];
      ApplyMovesAppend(nodes, a, init, stamp);
      assert (a + b)[..|a + b| - 1] == a + init;
      assert (a + b)[|a + b| - 1] == b[|b| - 1];
    }
  }

  /** `group.forEach((node, ni) => updateNode(node.id, { color, position }))` for group `gi` of `ng`. */
  method PlaceGroup(st: MindFlowStore, group: seq<MindNode>, gi: nat, ng: nat, place: (nat, nat, nat, nat) -> Position,
                    stamp: Timestamp)
    modifies st`data
    ensures st.data == old(st.data).WithForest(st.activeMode, ApplyMoves(old(st.GetNodes()), GroupMoves(group, gi, ng, place), stamp))
  {
    ghost var d0 := st.data;
    ghost var nodes := st.GetNodes();
    ghost var moves := GroupMoves(group, gi, ng, place);
    assert moves[..0] == [];
    WithForestSame(d0, st.activeMode);
    for ni := 0 to |group|
      invariant st.data == d0.WithForest(st.activeMode, ApplyMoves(nodes, moves[..ni], stamp))
    {
      var node := group[ni];
      ghost var before := ApplyMoves(nodes, moves[..ni], stamp);
      st.UpdateNode(node.id, ColorPositionPatch(node.color, place(gi, ng, ni, |group|)), stamp);
      ApplyMovesSnoc(nodes, moves, ni, stamp);
      WithForestTwice(d0, st.activeMode, before, ApplyMoves(nodes, moves[..ni + 1], stamp));
    }
    assert moves[..|group|] == moves;
  }

  /** `handleAutoOrganize()`: bucket the unparented dumped nodes, group them by colour, and send
      one colour-and-position update per node, group after group. */
  method HandleAutoOrganize(st: MindFlowStore, place: (nat, nat, nat, nat) -> Position, stamp: Timestamp)
    modifies st`data
    ensures var organized := Organized(Filter(old(st.GetNodes()), IsDumpedTop()));
            st.data == old(st.data).WithForest(st.activeMode,
              ApplyMoves(old(st.GetNodes()), Plan(organized, Keys(organized), |Keys(organized)|, place), stamp))
  {
    var nodes := st.GetNodes();
    var dumped := Filter(nodes, IsDumpedTop());
    var organized := AutoOrganize(dumped);
    var keys, groups := BuildGroups(organized);
    ghost var d0 := st.data;
    ghost var m := st.activeMode;
    WithForestSame(d0, m);
    for gi := 0 to |keys|
      invariant st.data == d0.WithForest(m, ApplyMoves(nodes, Plan(organized, keys, gi, place), stamp))
    {
      ghost var done := ApplyMoves(nodes, Plan(organized, keys, gi, place), stamp);
      PlaceGroup(st, groups[keys[gi]], gi, |keys|, place, stamp);
      ApplyMovesAppend(nodes, Plan(organized, keys, gi, place), GroupMoves(groups[keys[gi]], gi, |keys|, place), stamp);
      WithForestTwice(d0, m, done, ApplyMoves(nodes, Plan(organized, keys, gi + 1, place), stamp));
    }
  }

  // ---------------------------------------------------------------- what the grouping does

  /** Ids occur once in the forest. */
  predicate UniqueIds(nodes: seq<MindNode>)
  {
    forall i, j :: 0 <= i < j < |nodes| ==> nodes[i].id != nodes[j].id
  }

  /** `b` is `a` with at most its colour, position and time stamp changed. */
  predicate Restyled(a: MindNode, b: MindNode)
  {
    b == a.(color := b.color, position := b.position, updatedAt := b.updatedAt)
  }

  /** Some call names `id`. */
  predicate Named(ms: seq<Move>, id: string)
  {
    exists k :: 0 <= k < |ms| && ms[k].id == id
  }

  /** Some call names `id` with colour `c`. */
  predicate NamedWith(ms: seq<Move>, id: string, c: string)
  {
    exists k :: 0 <= k < |ms| && ms[k].id == id && ms[k].color == c
  }

  /** One colour-and-position update. */
  lemma UpdateByMove(nodes: seq<MindNode>, m: Move, stamp: Timestamp)
    ensures var r := UpdateForest(nodes, m.id, MovePatch(m), stamp);
            && |r| == |nodes|
            && forall j :: 0 <= j < |nodes| ==>
                 r[j] == if nodes[j].id == m.id then nodes[j].(color := m.color, position := m.position, updatedAt := stamp) else nodes[j]
  {
  }

  /** A forest after a sequence of colour-and-position updates: same length; every node differs
      from before at most in colour, position and time stamp; a node no call names is as before,
      and a named one carries the colour of one of the calls naming it and the new time. */
  lemma {:induction false} ApplyMovesEffect(nodes: seq<MindNode>, ms: seq<Move>, stamp: Timestamp)
    ensures |ApplyMoves(nodes, ms, stamp)| == |nodes|
    ensures forall j :: 0 <= j < |nodes| ==> Restyled(nodes[j], ApplyMoves(nodes, ms, stamp)[j])
    ensures forall j :: 0 <= j < |nodes| && !Named(ms, nodes[j].id) ==> ApplyMoves(nodes, ms, stamp)[j] == nodes[j]
    ensures forall j :: 0 <= j < |nodes| && Named(ms, nodes[j].id) ==>
              NamedWith(ms, nodes[j].id, ApplyMoves(nodes, ms, stamp)[j].color) && ApplyMoves(nodes, ms, stamp)[j].updatedAt == stamp
    decreases |ms|
  {
    if ms != [] {
      var init := ms[..|ms| - 1];
      var m := ms[|ms| - 1];
      ApplyMovesEffect(nodes, init, stamp);
      var prev := ApplyMoves(nodes, init, stamp);
      var r := ApplyMoves(nodes, ms, stamp);
      UpdateByMove(prev, m, stamp);
      forall j | 0 <= j < |nodes| ensures Restyled(nodes[j], r[j]) {
      }
      forall j | 0 <= j < |nodes| && !Named(ms, nodes[j].id) ensures r[j] == nodes[j] {
        assert prev[j].id == nodes[j].id;
        assert ms[|ms| - 1] == m;
      }
      forall j | 0 <= j < |nodes| && Named(ms, nodes[j].id)
        ensures NamedWith(ms, nodes[j].id, r[j].color) && r[j].updatedAt == stamp
      {
        assert prev[j].id == nodes[j].id;
        if nodes[j].id == m.id {
          assert ms[|ms| - 1] == m;
        } else {
          var k :| 0 <= k < |ms| && ms[k].id == nodes[j].id;
          assert k < |ms| - 1;
          assert init[k] == ms[k];
          var k' :| 0 <= k' < |init| && init[k'].id == nodes[j].id && init[k'].color == prev[j].color;
          assert ms[k'] == init[k'];
        }
      }
    }
  }

  /** A call that comes from the node `s[i]`. */
  predicate MoveOf(s: seq<MindNode>, mv: Move)
  {
    exists i :: 0 <= i < |s| && mv.id == s[i].id && mv.color == s[i].color
  }

  /** Every call of the plan comes from one of the grouped nodes. */
  lemma {:induction false} PlanFrom(s: seq<MindNode>, keys: seq<string>, n: nat, place: (nat, nat, nat, nat) -> Position)
    requires n <= |keys|
    ensures forall k :: 0 <= k < |Plan(s, keys, n, place)| ==> MoveOf(s, Plan(s, keys, n, place)[k])
    decreases n
  {
    if n > 0 {
      PlanFrom(s, keys, n - 1, place);
      var prev := Plan(s, keys, n - 1, place);
      var group := Group(s, keys[n - 1]);
      var moves := GroupMoves(group, n - 1, |keys|, place);
      var p := Plan(s, keys, n, place);
      assert p == prev + moves;
      forall k | 0 <= k < |p| ensures MoveOf(s, p[k]) {
        if k < |prev| {
          assert p[k] == prev[k];
        } else {
          var g := group[k - |prev|];
          assert g in s;
          var i :| 0 <= i < |s| && s[i] == g;
          assert p[k] == moves[k - |prev|];
        }
      }
    }
  }

  /** Every node whose colour is among the first `n` keys has a call in the plan. */
  lemma {:induction false} PlanCovers(s: seq<MindNode>, keys: seq<string>, n: nat, place: (nat, nat, nat, nat) -> Position)
    requires n <= |keys|
    ensures forall g, i :: 0 <= g < n && 0 <= i < |s| && s[i].color == keys[g] ==> Named(Plan(s, keys, n, place), s[i].id)
    decreases n
  {
    if n > 0 {
      PlanCovers(s, keys, n - 1, place);
      var prev := Plan(s, keys, n - 1, place);
      var group := Group(s, keys[n - 1]);
      var moves := GroupMoves(group, n - 1, |keys|, place);
      var p := Plan(s, keys, n, place);
      assert p == prev + moves;
      forall g, i | 0 <= g < n && 0 <= i < |s| && s[i].color == keys[g] ensures Named(p, s[i].id) {
        if g < n - 1 {
          NamedAppend(prev, moves, s[i].id);
        } else {
          GroupNamed(s, keys[n - 1], n - 1, |keys|, place, i);
          NamedAppend(prev, moves, s[i].id);
        }
      }
    }
  }

  /** A call named in either part is named in the whole. */
  lemma NamedAppend(a: seq<Move>, b: seq<Move>, id: string)
    ensures Named(a, id) || Named(b, id) ==> Named(a + b, id)
  {
    if Named(a, id) {
      var k :| 0 <= k < |a| && a[k].id == id;
      assert (a + b)[k] == a[k];
    } else if Named(b, id) {
      var k :| 0 <= k < |b| && b[k].id == id;
      assert (a + b)[|a| + k] == b[k];
    }
  }

  /** A node of colour `c` has a call among its group's calls. */
  lemma GroupNamed(s: seq<MindNode>, c: string, gi: nat, ng: nat, place: (nat, nat, nat, nat) -> Position, i: int)
    requires 0 <= i < |s| && s[i].color == c
    ensures Named(GroupMoves(Group(s, c), gi, ng, place), s[i].id)
  {
    var group := Group(s, c);
    assert ColorIs(c)(s[i]);
    assert s[i] in group;
    var ni :| 0 <= ni < |group| && group[ni] == s[i];
    assert GroupMoves(group, gi, ng, place)[ni].id == s[i].id;
  }

  /** The calls `handleAutoOrganize` makes on a forest. */
  function OrganizePlan(nodes: seq<MindNode>, place: (nat, nat, nat, nat) -> Position): seq<Move>
  {
    var organized := Organized(Filter(nodes, IsDumpedTop()));
    Plan(organized, Keys(organized), |Keys(organized)|, place)
  }

  /** A call from the unparented dumped node `nodes[j]`, with that node's category colour. */
  predicate FromDumped(nodes: seq<MindNode>, mv: Move)
  {
    exists j :: 0 <= j < |nodes| && IsDumpedTop()(nodes[j]) && mv.id == nodes[j].id
                && mv.color == CategoryColor(Classify(nodes[j].caption))
  }

  /** Every call names an unparented dumped node and carries its category colour. */
  lemma OrganizePlanFrom(nodes: seq<MindNode>, place: (nat, nat, nat, nat) -> Position)
    ensures forall k :: 0 <= k < |OrganizePlan(nodes, place)| ==> FromDumped(nodes, OrganizePlan(nodes, place)[k])
  {
    var dumped := Filter(nodes, IsDumpedTop());
    var organized := Organized(dumped);
    var keys := Keys(organized);
    var plan := OrganizePlan(nodes, place);
    PlanFrom(organized, keys, |keys|, place);
    forall k | 0 <= k < |plan| ensures FromDumped(nodes, plan[k]) {
      assert MoveOf(organized, plan[k]);
      var i :| 0 <= i < |organized| && plan[k].id == organized[i].id && plan[k].color == organized[i].color;
      assert organized[i] == Recolor(dumped[i]);
      assert dumped[i] in nodes && IsDumpedTop()(dumped[i]);
      var j :| 0 <= j < |nodes| && nodes[j] == dumped[i];
    }
  }

  /** Every unparented dumped node is named by some call. */
  lemma OrganizePlanCovers(nodes: seq<MindNode>, place: (nat, nat, nat, nat) -> Position)
    ensures forall j :: 0 <= j < |nodes| && IsDumpedTop()(nodes[j]) ==> Named(OrganizePlan(nodes, place), nodes[j].id)
  {
    var dumped := Filter(nodes, IsDumpedTop());
    var organized := Organized(dumped);
    var keys := Keys(organized);
    var plan := OrganizePlan(nodes, place);
    KeysMeaning(organized);
    PlanCovers(organized, keys, |keys|, place);
    forall j | 0 <= j < |nodes| && IsDumpedTop()(nodes[j]) ensures Named(plan, nodes[j].id) {
      assert nodes[j] in dumped;
      var i :| 0 <= i < |dumped| && dumped[i] == nodes[j];
      assert organized[i] == Recolor(dumped[i]);
      assert organized[i].color in keys;
      var g :| 0 <= g < |keys| && keys[g] == organized[i].color;
    }
  }

  /** With unique ids, the grouping leaves every node other than the unparented dumped ones exactly
      as it was. */
  lemma AutoOrganizeKeepsOthers(nodes: seq<MindNode>, place: (nat, nat, nat, nat) -> Position, stamp: Timestamp)
    requires UniqueIds(nodes)
    ensures |ApplyMoves(nodes, OrganizePlan(nodes, place), stamp)| == |nodes|
    ensures forall j :: 0 <= j < |nodes| && !IsDumpedTop()(nodes[j]) ==> ApplyMoves(nodes, OrganizePlan(nodes, place), stamp)[j] == nodes[j]
  {
    var plan := OrganizePlan(nodes, place);
    ApplyMovesEffect(nodes, plan, stamp);
    OrganizePlanFrom(nodes, place);
    forall j, k | 0 <= j < |nodes| && !IsDumpedTop()(nodes[j]) && 0 <= k < |plan| ensures plan[k].id != nodes[j].id {
      assert FromDumped(nodes, plan[k]);
      var j' :| 0 <= j' < |nodes| && IsDumpedTop()(nodes[j']) && plan[k].id == nodes[j'].id;
      assert j' != j;
    }
  }

  /** With unique ids, the grouping gives every unparented dumped node the colour `autoOrganize`
      assigns to its label and the new time, and changes nothing else about it but its position. */
  lemma AutoOrganizeRecolors(nodes: seq<MindNode>, place: (nat, nat, nat, nat) -> Position, stamp: Timestamp)
    requires UniqueIds(nodes)
    ensures |ApplyMoves(nodes, OrganizePlan(nodes, place), stamp)| == |nodes|
    ensures forall j :: 0 <= j < |nodes| && IsDumpedTop()(nodes[j]) ==>
              var r := ApplyMoves(nodes, OrganizePlan(nodes, place), stamp);
              && r[j].color == CategoryColor(Classify(nodes[j].caption)) && r[j].updatedAt == stamp
              && Restyled(nodes[j], r[j])
  {
    var plan := OrganizePlan(nodes, place);
    var r := ApplyMoves(nodes, plan, stamp);
    ApplyMovesEffect(nodes, plan, stamp);
    OrganizePlanFrom(nodes, place);
    OrganizePlanCovers(nodes, place);
    forall j | 0 <= j < |nodes| && IsDumpedTop()(nodes[j]) ensures r[j].color == CategoryColor(Classify(nodes[j].caption)) {
      assert NamedWith(plan, nodes[j].id, r[j].color);
      var k :| 0 <= k < |plan| && plan[k].id == nodes[j].id && plan[k].color == r[j].color;
      assert FromDumped(nodes, plan[k]);
      var j' :| 0 <= j' < |nodes| && IsDumpedTop()(nodes[j']) && plan[k].id == nodes[j'].id
                && plan[k].color == CategoryColor(Classify(nodes[j'].caption));
      assert j' == j;
    }
  }
}
