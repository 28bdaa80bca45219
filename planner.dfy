/** The day-plan summary of `components/modes/PlannerPanel.tsx`: the completion counts and
    percentage, the total estimated time and its hours-and-minutes display, and the per-slot
    child counts. The progress ring's geometry is floating point and is not modelled. */
module Planner {
  import opened Wrappers
  import opened Seqs
  import opened Types
  import opened Forest
  import opened Utils

  // ---------------------------------------------------------------- completion

  function IsCompleted(): MindNode -> bool
  {
    (n: MindNode) => n.completed == Some(true)
  }

  function HasCompleted(): MindNode -> bool
  {
    (n: MindNode) => n.completed.Some?
  }

  /** `completed` and `total`: nodes marked done, and nodes with the flag at all (roots included,
      unlike in the percentage). */
  function CompletionCounts(nodes: seq<MindNode>): (r: (nat, nat))
    ensures r.0 <= r.1 <= |nodes|
    ensures r.1 == 0 ==> r.0 == 0
    ensures r.0 == |set i: nat | i < |nodes| && nodes[i].completed == Some(true)|
    ensures r.1 == |set i: nat | i < |nodes| && nodes[i].completed.Some?|
  {
    CountMono(nodes, IsCompleted(), HasCompleted());
    CountIsPositions(nodes, IsCompleted());
    CountIsPositions(nodes, HasCompleted());
    assert Positions(nodes, IsCompleted()) == set i: nat | i < |nodes| && nodes[i].completed == Some(true);
    assert Positions(nodes, HasCompleted()) == set i: nat | i < |nodes| && nodes[i].completed.Some?;
    (Count(nodes, IsCompleted()), Count(nodes, HasCompleted()))
  }

  function FlaggedRoot(): MindNode -> bool
  {
    (n: MindNode) => IsRoot(n) && n.completed.Some?
  }

  /** The count beside the ring is the ring's denominator plus the flagged roots, for every list. */
  lemma RingCountsRoots(nodes: seq<MindNode>)
    ensures CompletionCounts(nodes).1 == Count(nodes, CompletedKnown()) + Count(nodes, FlaggedRoot())
  {
    CountIsPositions(nodes, HasCompleted());
    CountIsPositions(nodes, CompletedKnown());
    CountIsPositions(nodes, FlaggedRoot());
    var a, b := Positions(nodes, CompletedKnown()), Positions(nodes, FlaggedRoot());
    assert Positions(nodes, HasCompleted()) == a + b;
    assert a * b == {};
  }

  /** The ring's percentage is `getCompletionPercent`, which leaves out roots: on a root marked
      done with no other flagged node the ring shows 0 while the counts read 1/1. */
  lemma RingIgnoresRoots()
    ensures var root := Sample("r", Some(true)).(isRoot := Some(true));
            CompletionPercent([root]) == 0 && CompletionCounts([root]) == (1, 1)
  {
    var root := Sample("r", Some(true)).(isRoot := Some(true));
    assert Filter([root], CompletedKnown()) == [];
    assert Filter([root], IsCompleted()) == [root];
    assert Filter([root], HasCompleted()) == [root];
  }

  // ---------------------------------------------------------------- total time

  function HasEstimate(): MindNode -> bool
  {
    (n: MindNode) => n.estimatedTime.Some? && n.estimatedTime.value != 0
  }

  /** The sum of `estimatedTime || 0` over a list. */
  function SumEstimates(nodes: seq<MindNode>): int
    decreases |nodes|
  {
    if nodes == [] then 0 else nodes[0].estimatedTime.GetOr(0) + SumEstimates(nodes[1..])
  }

  /** `nodes.filter((n) => n.estimatedTime).reduce((s, n) => s + (n.estimatedTime || 0), 0)`:
      the filter drops only zero and missing estimates, which add nothing, so the total is the sum
      over all nodes. */
  function TotalTime(nodes: seq<MindNode>): (t: int)
    ensures t == SumEstimates(nodes)
    ensures (forall i :: 0 <= i < |nodes| ==> nodes[i].estimatedTime.GetOr(0) >= 0) ==> t >= 0
  {
    TruthyFilterKeepsSum(nodes);
    NonNegativeSum(nodes);
    SumEstimates(Filter(nodes, HasEstimate()))
  }

  lemma {:induction false} TruthyFilterKeepsSum(nodes: seq<MindNode>)
    ensures SumEstimates(Filter(nodes, HasEstimate())) == SumEstimates(nodes)
    decreases |nodes|
  {
    if nodes != [] {
      TruthyFilterKeepsSum(nodes[1..]);
      var f := Filter(nodes[1..], HasEstimate());
      assert Filter(nodes, HasEstimate()) == (if HasEstimate()(nodes[0]) then [nodes[0]] else []) + f;
      if HasEstimate()(nodes[0]) {
        assert ([nodes[0]] + f)[1..] == f;
        assert SumEstimates([nodes[0]] + f) == nodes[0].estimatedTime.GetOr(0) + SumEstimates(f);
      } else {
        assert [] + f == f;
        assert nodes[0].estimatedTime.GetOr(0) == 0;
      }
    }
  }

  lemma {:induction false} NonNegativeSum(nodes: seq<MindNode>)
    ensures (forall i :: 0 <= i < |nodes| ==> nodes[i].estimatedTime.GetOr(0) >= 0) ==> SumEstimates(nodes) >= 0
    decreases |nodes|
  {
    if nodes != [] {
      NonNegativeSum(nodes[1..]);
      if forall i :: 0 <= i < |nodes| ==> nodes[i].estimatedTime.GetOr(0) >= 0 {
        assert forall i :: 0 <= i < |nodes| - 1 ==> nodes[1..][i] == nodes[i + 1];
      }
    }
  }

  /** `Math.floor(t / 60)`. */
  function Hours(t: int): int
  {
    t / 60
  }

  /** `t % 60` in JavaScript, whose remainder takes the sign of the dividend. */
  function Minutes(t: int): int
  {
    if t >= 0 then t % 60 else -((-t) % 60)
  }

  /** For a non-negative total the display splits it exactly into whole hours and 0..59 minutes. */
  lemma HoursMinutesSplit(t: int)
    requires t >= 0
    ensures 60 * Hours(t) + Minutes(t) == t && 0 <= Minutes(t) < 60 && Hours(t) >= 0
  {
  }

  /** A negative total mixes a floored hour with a truncated minute: -30 reads "-1h -30m". */
  lemma NegativeTotalDisplay()
    ensures Hours(-30) == -1 && Minutes(-30) == -30 && 60 * Hours(-30) + Minutes(-30) != -30
  {
  }

  // ---------------------------------------------------------------- slots

  /** The four slot labels, in display order. */
  const SLOT_LABELS: seq<string> := ["Morning", "Afternoon", "Evening", "Someday"]

  /** A node counts for a slot when the first node with its parent id exists and bears that label. */
  predicate InSlot(nodes: seq<MindNode>, caption: string, n: MindNode)
  {
    n.parentId.Some? && Find(nodes, n.parentId.value).Some? && Find(nodes, n.parentId.value).value.caption == caption
  }

  function InSlotFn(nodes: seq<MindNode>, caption: string): MindNode -> bool
  {
    (n: MindNode) => InSlot(nodes, caption, n)
  }

  /** A slot's count; a node whose parent is missing or absent is never counted. */
  function SlotCount(nodes: seq<MindNode>, caption: string): (c: nat)
    ensures c <= |nodes|
    ensures c == 0 <==> forall i :: 0 <= i < |nodes| ==> !InSlot(nodes, caption, nodes[i])
    ensures c == |set i: nat | i < |nodes| && InSlot(nodes, caption, nodes[i])|
  {
    CountIsPositions(nodes, InSlotFn(nodes, caption));
    assert Positions(nodes, InSlotFn(nodes, caption)) == set i: nat | i < |nodes| && InSlot(nodes, caption, nodes[i]);
    var f := Filter(nodes, InSlotFn(nodes, caption));
    assert |f| > 0 ==> f[0] in nodes;
    |f|
  }

  /** A node lands in at most one slot, as the labels differ, so the four counts together never
      exceed the number of nodes. */
  lemma SlotCountsBounded(nodes: seq<MindNode>)
    ensures SlotCount(nodes, "Morning") + SlotCount(nodes, "Afternoon") + SlotCount(nodes, "Evening") + SlotCount(nodes, "Someday") <= |nodes|
  {
    SlotSum(nodes, nodes);
  }

  lemma {:induction false} SlotSum(all: seq<MindNode>, s: seq<MindNode>)
    ensures Count(s, InSlotFn(all, "Morning")) + Count(s, InSlotFn(all, "Afternoon"))
            + Count(s, InSlotFn(all, "Evening")) + Count(s, InSlotFn(all, "Someday")) <= |s|
    decreases |s|
  {
    if s != [] {
      SlotSum(all, s[1..]);
      FilterCons(s[0], s[1..], InSlotFn(all, "Morning"));
      FilterCons(s[0], s[1..], InSlotFn(all, "Afternoon"));
      FilterCons(s[0], s[1..], InSlotFn(all, "Evening"));
      FilterCons(s[0], s[1..], InSlotFn(all, "Someday"));
      assert [s[0]] + s[1..] == s;
    }
  }
}
