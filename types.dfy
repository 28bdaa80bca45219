/** The node model of `lib/types.ts`: one record type for every node of every mode, the
    five-forest aggregate the store keeps, and the partial records (`Partial<MindNode>`,
    `Partial<FilterState>`) that updates are written with. */
module Types {
  import opened Wrappers

  /** Node ids. Generated ids have the shape `node_<time>_<random>`, so an id is never the empty
      string and a present `parentId` is always truthy. */
  type NodeId = s: string | |s| > 0 witness "n"

  /** An ISO time stamp from the clock; the model never inspects it. */
  type Timestamp = string

  datatype NodeStatus = Todo | Doing | Done
  datatype NodePriority = Urgent | High | Normal | Low
  datatype TimeSlot = Morning | Afternoon | Evening | Someday
  datatype AppMode = Tasks | Braindump | Planner | Goals | Knowledge

  datatype Position = Position(x: real, y: real)

  /** A deadline is the stored date string together with the instant `new Date(text)` denotes,
      in milliseconds; `None` is an Invalid Date, whose time value is NaN. */
  datatype Deadline = Deadline(text: string, time: Option<int>)

  /** A node of any mode. The source's `label` field is called `caption` here, `label` being a
      Dafny keyword. */
  datatype MindNode = MindNode(
    id: NodeId,
    parentId: Option<NodeId>,
    caption: string,
    color: string,
    position: Position,
    collapsed: bool,
    status: Option<NodeStatus>,
    priority: Option<NodePriority>,
    deadline: Option<Deadline>,
    estimatedTime: Option<int>,
    timeSlot: Option<TimeSlot>,
    completed: Option<bool>,
    targetValue: Option<real>,
    currentValue: Option<real>,
    notes: Option<string>,
    tags: Option<seq<string>>,
    isDumped: Option<bool>,
    createdAt: Timestamp,
    updatedAt: Timestamp,
    isRoot: Option<bool>)

  /** `node.isRoot` is truthy. */
  predicate IsRoot(n: MindNode)
  {
    n.isRoot == Some(true)
  }

  /** A `Partial<MindNode>`: every field may be absent. `parentId` may be present and `null`. */
  datatype NodePatch = NodePatch(
    id: Option<NodeId>,
    parentId: Option<Option<NodeId>>,
    caption: Option<string>,
    color: Option<string>,
    position: Option<Position>,
    collapsed: Option<bool>,
    status: Option<NodeStatus>,
    priority: Option<NodePriority>,
    deadline: Option<Deadline>,
    estimatedTime: Option<int>,
    timeSlot: Option<TimeSlot>,
    completed: Option<bool>,
    targetValue: Option<real>,
    currentValue: Option<real>,
    notes: Option<string>,
    tags: Option<seq<string>>,
    isDumped: Option<bool>,
    createdAt: Option<Timestamp>,
    updatedAt: Option<Timestamp>,
    isRoot: Option<bool>)

  /** `{}`. */
  const EmptyPatch := NodePatch(None, None, None, None, None, None, None, None, None, None,
                                None, None, None, None, None, None, None, None, None, None)

  /** A field of the patch when the patch has it, the old field otherwise. */
  function Over<T>(p: Option<T>, old_: Option<T>): Option<T>
  {
    if p.Some? then p else old_
  }

  /** `n` carries every field that `p` sets, with the value `p` gives it. */
  predicate Agrees(n: MindNode, p: NodePatch)
  {
    && (p.id.Some? ==> n.id == p.id.value)
    && (p.parentId.Some? ==> n.parentId == p.parentId.value)
    && (p.caption.Some? ==> n.caption == p.caption.value)
    && (p.color.Some? ==> n.color == p.color.value)
    && (p.position.Some? ==> n.position == p.position.value)
    && (p.collapsed.Some? ==> n.collapsed == p.collapsed.value)
    && (p.status.Some? ==> n.status == p.status)
    && (p.priority.Some? ==> n.priority == p.priority)
    && (p.deadline.Some? ==> n.deadline == p.deadline)
    && (p.estimatedTime.Some? ==> n.estimatedTime == p.estimatedTime)
    && (p.timeSlot.Some? ==> n.timeSlot == p.timeSlot)
    && (p.completed.Some? ==> n.completed == p.completed)
    && (p.targetValue.Some? ==> n.targetValue == p.targetValue)
    && (p.currentValue.Some? ==> n.currentValue == p.currentValue)
    && (p.notes.Some? ==> n.notes == p.notes)
    && (p.tags.Some? ==> n.tags == p.tags)
    && (p.isDumped.Some? ==> n.isDumped == p.isDumped)
    && (p.createdAt.Some? ==> n.createdAt == p.createdAt.value)
    && (p.updatedAt.Some? ==> n.updatedAt == p.updatedAt.value)
    && (p.isRoot.Some? ==> n.isRoot == p.isRoot)
  }

  /** `r` keeps from `n` every field that `p` leaves unset. */
  predicate KeepsUnset(n: MindNode, r: MindNode, p: NodePatch)
  {
    && (p.id.None? ==> r.id == n.id)
    && (p.parentId.None? ==> r.parentId == n.parentId)
    && (p.caption.None? ==> r.caption == n.caption)
    && (p.color.None? ==> r.color == n.color)
    && (p.position.None? ==> r.position == n.position)
    && (p.collapsed.None? ==> r.collapsed == n.collapsed)
    && (p.status.None? ==> r.status == n.status)
    && (p.priority.None? ==> r.priority == n.priority)
    && (p.deadline.None? ==> r.deadline == n.deadline)
    && (p.estimatedTime.None? ==> r.estimatedTime == n.estimatedTime)
    && (p.timeSlot.None? ==> r.timeSlot == n.timeSlot)
    && (p.completed.None? ==> r.completed == n.completed)
    && (p.targetValue.None? ==> r.targetValue == n.targetValue)
    && (p.currentValue.None? ==> r.currentValue == n.currentValue)
    && (p.notes.None? ==> r.notes == n.notes)
    && (p.tags.None? ==> r.tags == n.tags)
    && (p.isDumped.None? ==> r.isDumped == n.isDumped)
    && (p.createdAt.None? ==> r.createdAt == n.createdAt)
    && (p.updatedAt.None? ==> r.updatedAt == n.updatedAt)
    && (p.isRoot.None? ==> r.isRoot == n.isRoot)
  }

  /** `{ ...n, ...p }`: the fields `p` has replace those of `n`, and the rest are kept. */
  function ApplyPatch(n: MindNode, p: NodePatch): (r: MindNode)
    ensures Agrees(r, p)
    ensures KeepsUnset(n, r, p)
  {
    MindNode(
      p.id.GetOr(n.id),
      p.parentId.GetOr(n.parentId),
      p.caption.GetOr(n.caption),
      p.color.GetOr(n.color),
      p.position.GetOr(n.position),
      p.collapsed.GetOr(n.collapsed),
      Over(p.status, n.status),
      Over(p.priority, n.priority),
      Over(p.deadline, n.deadline),
      Over(p.estimatedTime, n.estimatedTime),
      Over(p.timeSlot, n.timeSlot),
      Over(p.completed, n.completed),
      Over(p.targetValue, n.targetValue),
      Over(p.currentValue, n.currentValue),
      Over(p.notes, n.notes),
      Over(p.tags, n.tags),
      Over(p.isDumped, n.isDumped),
      p.createdAt.GetOr(n.createdAt),
      p.updatedAt.GetOr(n.updatedAt),
      Over(p.isRoot, n.isRoot))
  }

  /** The two halves of the merge determine it: a node that carries the patch's fields and keeps
      the others is the merged node. */
  lemma ApplyPatchDetermined(n: MindNode, p: NodePatch, r: MindNode)
    requires Agrees(r, p) && KeepsUnset(n, r, p)
    ensures r == ApplyPatch(n, p)
  {
  }

  /** A merge changes nothing exactly when the node already carries what the patch says. */
  lemma ApplyPatchNoop(n: MindNode, p: NodePatch)
    ensures ApplyPatch(n, p) == n <==> Agrees(n, p)
  {
    if Agrees(n, p) {
      assert ApplyPatch(n, p).status == n.status;
    }
  }

  /** Merging the same patch twice is merging it once. */
  lemma ApplyPatchIdempotent(n: MindNode, p: NodePatch)
    ensures ApplyPatch(ApplyPatch(n, p), p) == ApplyPatch(n, p)
  {
    ApplyPatchNoop(ApplyPatch(n, p), p);
  }

  /** The patch with only `color` and `position`, as the auto-grouping writes it. */
  function ColorPositionPatch(color: string, position: Position): (p: NodePatch)
    ensures p.id.None? && p.parentId.None?
  {
    EmptyPatch.(color := Some(color), position := Some(position))
  }

  datatype AppSettings = AppSettings(darkMode: bool, workspaceName: string, autoSave: bool)

  /** The persisted aggregate: one node list per mode, the settings and the recent-node list. */
  datatype MindFlowData = MindFlowData(
    tasks: seq<MindNode>,
    braindump: seq<MindNode>,
    planner: seq<MindNode>,
    goals: seq<MindNode>,
    knowledge: seq<MindNode>,
    settings: AppSettings,
    recentNodeIds: seq<string>,
    version: string)
  {
    /** `data[mode].nodes`. */
    function Forest(m: AppMode): seq<MindNode>
    {
      match m
      case Tasks => tasks
      case Braindump => braindump
      case Planner => planner
      case Goals => goals
      case Knowledge => knowledge
    }

    /** `{ ...data, [mode]: { nodes } }`: one forest replaced, everything else kept. */
    function WithForest(m: AppMode, nodes: seq<MindNode>): (r: MindFlowData)
      ensures r.Forest(m) == nodes
      ensures forall m' :: m' != m ==> r.Forest(m') == Forest(m')
      ensures r.settings == settings && r.recentNodeIds == recentNodeIds && r.version == version
    {
      match m
      case Tasks => this.(tasks := nodes)
      case Braindump => this.(braindump := nodes)
      case Planner => this.(planner := nodes)
      case Goals => this.(goals := nodes)
      case Knowledge => this.(knowledge := nodes)
    }
  }

  /** Replacing a forest twice keeps the second replacement. */
  lemma WithForestTwice(d: MindFlowData, m: AppMode, a: seq<MindNode>, b: seq<MindNode>)
    ensures d.WithForest(m, a).WithForest(m, b) == d.WithForest(m, b)
  {
  }

  /** Replacing a forest by itself changes nothing. */
  lemma WithForestSame(d: MindFlowData, m: AppMode)
    ensures d.WithForest(m, d.Forest(m)) == d
  {
  }

  /** The order in which cross-mode lookups scan the forests. */
  const MODES: seq<AppMode> := [Tasks, Braindump, Planner, Goals, Knowledge]

  /** The tasks-mode filter toggles. */
  datatype FilterState = FilterState(showOverdue: bool, showUrgent: bool, projectId: Option<NodeId>)

  /** A `Partial<FilterState>`; `projectId` may be present and `null`. */
  datatype FilterPatch = FilterPatch(showOverdue: Option<bool>, showUrgent: Option<bool>,
                                     projectId: Option<Option<NodeId>>)

  /** `{ ...filterState, ...patch }`. */
  function ApplyFilterPatch(f: FilterState, p: FilterPatch): (r: FilterState)
    ensures p.showOverdue.Some? ==> r.showOverdue == p.showOverdue.value
    ensures p.showUrgent.Some? ==> r.showUrgent == p.showUrgent.value
    ensures p.projectId.Some? ==> r.projectId == p.projectId.value
    ensures p.showOverdue.None? ==> r.showOverdue == f.showOverdue
    ensures p.showUrgent.None? ==> r.showUrgent == f.showUrgent
    ensures p.projectId.None? ==> r.projectId == f.projectId
  {
    FilterState(p.showOverdue.GetOr(f.showOverdue), p.showUrgent.GetOr(f.showUrgent),
                p.projectId.GetOr(f.projectId))
  }

  /** The palette a new node's colour is drawn from when neither the caller nor the parent gives one. */
  const DEFAULT_COLORS: seq<string> := [
    "#6366f1", "#ec4899", "#f59e0b", "#10b981", "#3b82f6",
    "#ef4444", "#8b5cf6", "#06b6d4", "#f97316", "#84cc16"
  ]

  lemma DefaultColorsNonEmpty()
    ensures |DEFAULT_COLORS| == 10
    ensures forall i :: 0 <= i < |DEFAULT_COLORS| ==> DEFAULT_COLORS[i] != ""
  {
  }
}
