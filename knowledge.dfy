/** The tag editor of `components/modes/KnowledgePanel.tsx`: the tag list that adding or removing
    a tag hands to `updateNode`, and the node the panel works on. The notes editor is not modelled. */
module Knowledge {
  import opened Wrappers
  import opened Seqs
  import opened Text
  import opened Types
  import opened Forest
  import opened Store

  /** `s.replace(/^#/, '')`: one leading `#`, if any, removed. */
  function DropHash(s: string): (r: string)
    ensures s != [] && s[0] == '#' ==> s == "#" + r
    ensures (s == [] || s[0] != '#') ==> r == s
  {
    if s != [] && s[0] == '#' then s[1..] else s
  }

  /** `tag.trim().replace(/^#/, '')`. */
  function CleanTag(tag: string): (r: string)
    ensures var t := Trim(tag); t != [] && t[0] == '#' ==> "#" + r == t
    ensures var t := Trim(tag); (t == [] || t[0] != '#') ==> r == t
    ensures |r| <= |tag|
  {
    DropHash(Trim(tag))
  }

  /** White space round the tag and one leading `#` go. */
  lemma CleanTagExample()
    ensures CleanTag("  #rust ") == "rust"
  {
    TrimBetween("  #rust ", 2, 7);
  }

  /** Only the first `#` goes, so `"##x"` keeps one. */
  lemma CleanTagOneHash()
    ensures CleanTag("##x") == "#x"
  {
    TrimBetween("##x", 0, 3);
  }

  /** The text after the `#` is not trimmed again. */
  lemma CleanTagNoRetrim()
    ensures CleanTag(" # x") == " x"
  {
    TrimBetween(" # x", 1, 4);
  }

  /** The list `addTag` writes, or `None` when the cleaned input is empty and nothing is written. A
      tag already present leaves the list as it is; a new one goes at the end. */
  function AddTag(existing: Option<seq<string>>, input: string): (r: Option<seq<string>>)
    ensures r.None? <==> CleanTag(input) == ""
    ensures r.Some? ==> CleanTag(input) in r.value
    ensures r.Some? && CleanTag(input) in existing.GetOr([]) ==> r.value == existing.GetOr([])
    ensures r.Some? && CleanTag(input) !in existing.GetOr([]) ==> r.value == existing.GetOr([]) + [CleanTag(input)]
  {
    var t := CleanTag(input);
    if t == "" then None
    else
      var ex := existing.GetOr([]);
      Some(if t in ex then ex else ex + [t])
  }

  /** Adding keeps a duplicate-free list duplicate-free. */
  lemma AddTagNoDup(existing: Option<seq<string>>, input: string)
    requires NoDup(existing.GetOr([]))
    requires AddTag(existing, input).Some?
    ensures NoDup(AddTag(existing, input).value)
  {
  }

  /** Adding the same input twice is adding it once. */
  lemma AddTagIdempotent(existing: Option<seq<string>>, input: string)
    requires AddTag(existing, input).Some?
    ensures AddTag(AddTag(existing, input), input) == AddTag(existing, input)
  {
  }

  function NotTag(tag: string): string -> bool
  {
    (t: string) => t != tag
  }

  /** `(node.tags || []).filter((t) => t !== tag)`: every occurrence removed, the rest in order,
      and only the occurrences removed, so every other tag stays as often as it was. */
  function RemoveTag(existing: Option<seq<string>>, tag: string): (r: seq<string>)
    ensures tag !in r
    ensures Subseq(r, existing.GetOr([]))
    ensures forall i :: 0 <= i < |existing.GetOr([])| && existing.GetOr([])[i] != tag ==> existing.GetOr([])[i] in r
    ensures |r| + multiset(existing.GetOr([]))[tag] == |existing.GetOr([])|
  {
    FilterIsSubseq(existing.GetOr([]), NotTag(tag));
    RemovedCount(existing.GetOr([]), tag);
    Filter(existing.GetOr([]), NotTag(tag))
  }

  /** The filter drops exactly the occurrences of the tag. */
  lemma {:induction false} RemovedCount(s: seq<string>, tag: string)
    ensures |Filter(s, NotTag(tag))| + multiset(s)[tag] == |s|
    decreases |s|
  {
    if s != [] {
      RemovedCount(s[1..], tag);
      assert s == [s[0]] + s[1..];
      assert multiset(s) == multiset{s[0]} + multiset(s[1..]);
    }
  }

  /** Removing a tag keeps a repeated other tag twice. */
  lemma RemoveTagExample()
    ensures RemoveTag(Some(["a", "a", "b"]), "b") == ["a", "a"]
  {
    var s := ["a", "a", "b"];
    assert s[1..] == ["a", "b"] && s[1..][1..] == ["b"] && s[1..][1..][1..] == [];
  }

  /** Removing a freshly added tag gives back the list it was added to. */
  lemma RemoveUndoesAdd(existing: Option<seq<string>>, input: string)
    requires AddTag(existing, input).Some? && CleanTag(input) !in existing.GetOr([])
    ensures RemoveTag(AddTag(existing, input), CleanTag(input)) == existing.GetOr([])
  {
    var ex := existing.GetOr([]);
    var t := CleanTag(input);
    FilterSnoc(ex, t, NotTag(t));
    FilterAll(ex, NotTag(t));
  }

  /** The node the panel shows: the selected id (when truthy) resolved across the modes, shown only
      in knowledge mode and never for a root. */
  function PanelNode(d: MindFlowData, mode: AppMode, selected: Option<string>): (r: Option<MindNode>)
    ensures r.Some? ==> mode == Knowledge && !IsRoot(r.value)
    ensures r.Some? ==> selected.Some? && LocateNode(d, selected.value).Some? && LocateNode(d, selected.value).value.0 == r.value
    ensures r.None? ==> mode != Knowledge || selected.None? || LocateNode(d, selected.value).None? || IsRoot(LocateNode(d, selected.value).value.0)
  {
    if selected.None? || selected.value == "" then None
    else match LocateNode(d, selected.value)
      case None => None
      case Some((n, _)) => if mode != Knowledge || IsRoot(n) then None else Some(n)
  }

  /** The patch `{ tags }`. */
  function TagsPatch(tags: seq<string>): (p: NodePatch)
    ensures p.id.None? && p.parentId.None? && p.tags == Some(tags)
    ensures p.(tags := None) == EmptyPatch
  {
    EmptyPatch.(tags := Some(tags))
  }

  /** `addTag(tagInput)`: writes the new list to the panel's node and returns the new input text,
      empty after a write and unchanged otherwise. */
  method HandleAddTag(st: MindFlowStore, input: string, stamp: Timestamp) returns (newInput: string)
    requires PanelNode(st.data, st.activeMode, st.selectedNodeId).Some?
    modifies st`data
    ensures var n := PanelNode(old(st.data), st.activeMode, st.selectedNodeId).value;
            match AddTag(n.tags, input)
            case None => st.data == old(st.data) && newInput == input
            case Some(tags) =>
              && st.data == old(st.data).WithForest(Knowledge, UpdateForest(old(st.GetNodes()), n.id, TagsPatch(tags), stamp))
              && newInput == ""
  {
    var n := PanelNode(st.data, st.activeMode, st.selectedNodeId).value;
    var tags := AddTag(n.tags, input);
    if tags.None? {
      return input;
    }
    st.UpdateNode(n.id, TagsPatch(tags.value), stamp);
    newInput := "";
  }

  /** `removeTag(tag)`. */
  method HandleRemoveTag(st: MindFlowStore, tag: string, stamp: Timestamp)
    requires PanelNode(st.data, st.activeMode, st.selectedNodeId).Some?
    modifies st`data
    ensures var n := PanelNode(old(st.data), st.activeMode, st.selectedNodeId).value;
            st.data == old(st.data).WithForest(Knowledge, UpdateForest(old(st.GetNodes()), n.id, TagsPatch(RemoveTag(n.tags, tag)), stamp))
  {
    var n := PanelNode(st.data, st.activeMode, st.selectedNodeId).value;
    st.UpdateNode(n.id, TagsPatch(RemoveTag(n.tags, tag)), stamp);
  }
}
