/** The floating task list of `components/modes/TaskListPanel.tsx`: which nodes are tasks, the
    order the list shows them in, the header counts and the status toggle. */
module TaskList {
  import opened Wrappers
  import opened Seqs
  import opened Types
  import opened Utils

  // ---------------------------------------------------------------- selection

  function IsTaskFn(): MindNode -> bool
  {
    (n: MindNode) => !IsRoot(n) && n.status.Some?
  }

  /** `allTasks`: the non-root nodes of the tasks forest that carry a status, in list order. */
  function AllTasks(nodes: seq<MindNode>): (r: seq<MindNode>)
    ensures Subseq(r, nodes)
    ensures forall i :: 0 <= i < |r| ==> !IsRoot(r[i]) && r[i].status.Some?
    ensures forall j :: 0 <= j < |nodes| && !IsRoot(nodes[j]) && nodes[j].status.Some? ==> nodes[j] in r
  {
    FilterIsSubseq(nodes, IsTaskFn());
    Filter(nodes, IsTaskFn())
  }

  // ---------------------------------------------------------------- order

  /** The comparator's priority rank: urgent 4, high 3, normal 2, low or none 1. */
  function Rank(p: Option<NodePriority>): (r: int)
    ensures 1 <= r <= 4
    ensures r == 4 <==> p == Some(Urgent)
  {
    match p
    case Some(Urgent) => 4
    case Some(High) => 3
    case Some(Normal) => 2
    case _ => 1
  }

  function OverdueFlag(n: MindNode, now: int): int
  {
    if IsOverdue(n.deadline, now) then 1 else 0
  }

  /** The sort comparator `(bOv - aOv) || (bp - ap)`: negative when `a` goes first. */
  function Compare(a: MindNode, b: MindNode, now: int): int
  {
    var d := OverdueFlag(b, now) - OverdueFlag(a, now);
    if d != 0 then d else Rank(b.priority) - Rank(a.priority)
  }

  /** One number that orders tasks as the comparator does: overdue counts more than any rank. */
  function Score(n: MindNode, now: int): int
  {
    4 * OverdueFlag(n, now) + Rank(n.priority)
  }

  /** The comparator is negative, zero or positive exactly as `a` has the higher, the same or the
      lower score, so it is a consistent order and a sort by it is a sort by descending score. */
  lemma CompareIsScoreOrder(a: MindNode, b: MindNode, now: int)
    ensures Compare(a, b, now) < 0 <==> Score(a, now) > Score(b, now)
    ensures Compare(a, b, now) == 0 <==> Score(a, now) == Score(b, now)
    ensures Compare(a, b, now) == -Compare(b, a, now)
  {
  }

  /** Descending by score. */
  predicate Sorted(s: seq<MindNode>, now: int)
  {
    forall i, j :: 0 <= i < j < |s| ==> Score(s[i], now) >= Score(s[j], now)
  }

  /** `x` placed after every element that does not score lower than it. */
  function Insert(s: seq<MindNode>, x: MindNode, now: int): (r: seq<MindNode>)
    ensures multiset(r) == multiset(s) + multiset{x}
    ensures |r| == |s| + 1
    decreases |s|
  {
    if s == [] then [x]
    else if Score(s[0], now) < Score(x, now) then [x] + s
    else
      assert s == [s[0]] + s[1..];
      [s[0]] + Insert(s[1..], x, now)
  }

  /** `[...allTasks].sort(comparator)`: a stable sort of a copy, written as an insertion sort. Any
      stable sort by a consistent comparator gives the same list, which the three lemmas below pin
      down: sorted, a permutation, and the equal-score runs in input order. */
  function SortTasks(s: seq<MindNode>, now: int): (r: seq<MindNode>)
    ensures |r| == |s|
    decreases |s|
  {
    if s == [] then [] else Insert(SortTasks(s[..|s| - 1], now), s[|s| - 1], now)
  }

  lemma {:induction false} InsertSorted(s: seq<MindNode>, x: MindNode, now: int)
    requires Sorted(s, now)
    ensures Sorted(Insert(s, x, now), now)
    decreases |s|
  {
    if s != [] && Score(s[0], now) >= Score(x, now) {
      var t := s[1..];
      InsertSorted(t, x, now);
      InsertBounded(t, x, now, Score(s[0], now));
    }
  }

  /** A bound every element and `x` keep holds for the list with `x` inserted. */
  lemma {:induction false} InsertBounded(s: seq<MindNode>, x: MindNode, now: int, v: int)
    requires forall k :: 0 <= k < |s| ==> Score(s[k], now) <= v
    requires Score(x, now) <= v
    ensures forall k :: 0 <= k < |Insert(s, x, now)| ==> Score(Insert(s, x, now)[k], now) <= v
    decreases |s|
  {
    if s != [] && Score(s[0], now) >= Score(x, now) {
      InsertBounded(s[1..], x, now, v);
    }
  }

  lemma {:induction false} SortTasksSorted(s: seq<MindNode>, now: int)
    ensures Sorted(SortTasks(s, now), now)
    decreases |s|
  {
    if s != [] {
      SortTasksSorted(s[..|s| - 1], now);
      InsertSorted(SortTasks(s[..|s| - 1], now), s[|s| - 1], now);
    }
  }

  /** The sorted list holds the same tasks, each as often. */
  lemma {:induction false} SortTasksPermutation(s: seq<MindNode>, now: int)
    ensures multiset(SortTasks(s, now)) == multiset(s)
    decreases |s|
  {
    if s != [] {
      SortTasksPermutation(s[..|s| - 1], now);
      assert s == s[..|s| - 1] + [s[|s| - 1]];
    }
  }

  function ScoreIs(v: int, now: int): MindNode -> bool
  {
    (n: MindNode) => Score(n, now) == v
  }

  lemma {:induction false} InsertStable(s: seq<MindNode>, x: MindNode, now: int, v: int)
    requires Sorted(s, now)
    ensures Filter(Insert(s, x, now), ScoreIs(v, now)) == Filter(s, ScoreIs(v, now)) + (if Score(x, now) == v then [x] else [])
    decreases |s|
  {
    var p := ScoreIs(v, now);
    if s == [] {
    } else if Score(s[0], now) < Score(x, now) {
      InsertFront(s, x, now, v);
    } else {
      var t := s[1..];
      InsertStable(t, x, now, v);
      FilterCons(s[0], Insert(t, x, now), p);
      FilterCons(s[0], t, p);
      assert [s[0]] + t == s;
      assert Insert(s, x, now) == [s[0]] + Insert(t, x, now);
      var a := if p(s[0]) then [s[0]] else [];
      var e := if Score(x, now) == v then [x] else [];
      assert Filter(Insert(s, x, now), p) == a + (Filter(t, p) + e);
      AppendAssoc(a, Filter(t, p), e);
    }
  }

  /** An element placed in front of a sorted list that scores lower than it: its score's run is
      just that element. */
  lemma InsertFront(s: seq<MindNode>, x: MindNode, now: int, v: int)
    requires Sorted(s, now) && s != [] && Score(s[0], now) < Score(x, now)
    ensures Filter([x] + s, ScoreIs(v, now)) == Filter(s, ScoreIs(v, now)) + (if Score(x, now) == v then [x] else [])
  {
    var p := ScoreIs(v, now);
    FilterCons(x, s, p);
    if Score(x, now) == v {
      assert forall i :: 0 <= i < |s| ==> Score(s[i], now) <= Score(s[0], now);
      FilterNone(s, p);
    }
  }

  /** Stability: the tasks of any one score appear in the sorted list in their input order. */
  lemma {:induction false} SortTasksStable(s: seq<MindNode>, now: int, v: int)
    ensures Filter(SortTasks(s, now), ScoreIs(v, now)) == Filter(s, ScoreIs(v, now))
    decreases |s|
  {
    if s != [] {
      var init := s[..|s| - 1];
      SortTasksStable(init, now, v);
      SortTasksSorted(init, now);
      InsertStable(SortTasks(init, now), s[|s| - 1], now, v);
      FilterLast(s, ScoreIs(v, now));
    }
  }

  lemma {:induction false} InsertCount(s: seq<MindNode>, x: MindNode, now: int, p: MindNode -> bool)
    ensures Count(Insert(s, x, now), p) == Count(s, p) + (if p(x) then 1 else 0)
    decreases |s|
  {
    if s == [] {
    } else if Score(s[0], now) < Score(x, now) {
      FilterCons(x, s, p);
    } else {
      var t := s[1..];
      InsertCount(t, x, now, p);
      FilterCons(s[0], Insert(t, x, now), p);
      FilterCons(s[0], t, p);
      assert [s[0]] + t == s;
    }
  }

  /** Any count taken over the sorted list equals the count over the `TaskListPanel` list. */
  lemma {:induction false} SortTasksCount(s: seq<MindNode>, now: int, p: MindNode -> bool)
    ensures Count(SortTasks(s, now), p) == Count(s, p)
    decreases |s|
  {
    if s != [] {
      var init, last := s[..|s| - 1], s[|s| - 1];
      SortTasksCount(init, now, p);
      InsertCount(SortTasks(init, now), last, now, p);
      FilterLast(s, p);
    }
  }

  /** What the order promises: overdue tasks come before the others, and among tasks with the same
      overdue state the higher rank comes first. */
  lemma OverdueFirst(s: seq<MindNode>, now: int, i: int, j: int)
    requires 0 <= i < j < |SortTasks(s, now)|
    ensures var r := SortTasks(s, now);
            && (IsOverdue(r[j].deadline, now) ==> IsOverdue(r[i].deadline, now))
            && (IsOverdue(r[i].deadline, now) == IsOverdue(r[j].deadline, now) ==> Rank(r[i].priority) >= Rank(r[j].priority))
  {
    SortTasksSorted(s, now);
  }

  // ---------------------------------------------------------------- header and badge

  function IsDoneFn(): MindNode -> bool
  {
    (n: MindNode) => n.status == Some(Done)
  }

  function OverdueOpenFn(now: int): MindNode -> bool
  {
    (n: MindNode) => IsOverdue(n.deadline, now) && n.status != Some(Done)
  }

  /** `done`, `sorted.length`, `pct` and the badge number. */
  datatype Summary = Summary(done: nat, total: nat, pct: int, overdue: nat)

  /** The header and badge numbers, computed over the sorted list as the panel does; they are the
      counts over the `TaskListPanel` list, since sorting keeps every task. */
  function Summarize(nodes: seq<MindNode>, now: int): (r: Summary)
    ensures r.total == |AllTasks(nodes)|
    ensures r.done == Count(AllTasks(nodes), IsDoneFn()) && r.done <= r.total
    ensures r.overdue == Count(AllTasks(nodes), OverdueOpenFn(now))
    ensures 0 <= r.pct <= 100 && (r.total == 0 ==> r.pct == 0)
    ensures r.total > 0 ==> r.pct as real - 0.5 <= (r.done as real / r.total as real) * 100.0 < r.pct as real + 0.5
  {
    var sorted := SortTasks(AllTasks(nodes), now);
    SortTasksCount(AllTasks(nodes), now, IsDoneFn());
    SortTasksCount(AllTasks(nodes), now, OverdueOpenFn(now));
    var done := Count(sorted, IsDoneFn());
    Summary(done, |sorted|, Percent(done, |sorted|), Count(sorted, OverdueOpenFn(now)))
  }

  // ---------------------------------------------------------------- status toggle

  /** The round button: a done task becomes todo, any other becomes done. */
  function NextStatus(s: Option<NodeStatus>): (r: NodeStatus)
    ensures r == Done <==> s != Some(Done)
  {
    if s == Some(Done) then Todo else Done
  }

  /** Two clicks restore a done or a todo task; a task in progress ends up todo. */
  lemma NextStatusTwice(s: NodeStatus)
    ensures s != Doing ==> NextStatus(Some(NextStatus(Some(s)))) == s
    ensures s == Doing ==> NextStatus(Some(NextStatus(Some(s)))) == Todo
  {
  }

  /** The patch the toggle sends to `updateNode`. */
  function TogglePatch(n: MindNode): (p: NodePatch)
    ensures p.id.None? && p.parentId.None?
    ensures p.status == Some(NextStatus(n.status))
    ensures p.(status := None) == EmptyPatch
  {
    EmptyPatch.(status := Some(NextStatus(n.status)))
  }
}
