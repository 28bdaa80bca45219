/** `lib/utils.ts`: deadlines, percentages, keyword bucketing and colour-channel parsing.
    Numbers are exact (`real` and `int`): the source's floating point is not modelled, so a
    quotient such as `current / target` is the exact rational. */
module Utils {
  import opened Wrappers
  import opened Seqs
  import opened Text
  import opened Types

  // ---------------------------------------------------------------- deadlines

  /** `isOverdue(deadline)` at the instant `now` (milliseconds): an absent or empty deadline is
      never overdue, an unparseable one neither (NaN compares false), any other one exactly when
      it lies strictly before `now`. */
  predicate IsOverdue(deadline: Option<Deadline>, now: int)
  {
    && deadline.Some?
    && deadline.value.text != ""
    && deadline.value.time.Some?
    && deadline.value.time.value < now
  }

  /** Overdue is strict, and once overdue a deadline stays overdue. */
  lemma OverdueStrictAndMonotone(d: Deadline, now: int, later: int)
    requires d.text != "" && d.time.Some?
    requires now <= later
    ensures !IsOverdue(Some(d), d.time.value)
    ensures IsOverdue(Some(d), d.time.value + 1)
    ensures IsOverdue(Some(d), now) ==> IsOverdue(Some(d), later)
  {
  }

  /** Milliseconds in a day. */
  const DAY: int := 1000 * 60 * 60 * 24

  /** `Math.ceil(a / b)` for a positive divisor. */
  function CeilDiv(a: int, b: int): (r: int)
    requires b > 0
    ensures (r - 1) * b < a <= r * b
  {
    var q := (-a) / b;
    assert -a == q * b + (-a) % b;
    -q
  }

  /** `Math.ceil(diff / DAY)` where `diff` is the deadline minus now. */
  function DaysUntil(time: int, now: int): (r: int)
    ensures (r - 1) * DAY < time - now <= r * DAY
  {
    CeilDiv(time - now, DAY)
  }

  /** The label `formatDeadline` gives a day count: exactly one of its four branches applies. */
  function FormatDays(days: int): string
  {
    if days < 0 then NatToString(-days) + "d overdue"
    else if days == 0 then "Due today"
    else if days == 1 then "Due tomorrow"
    else "Due in " + NatToString(days) + "d"
  }

  /** `formatDeadline(deadline)` at `now`; an unparseable date leaves NaN days, which fall through
      every comparison to the last branch. */
  function FormatDeadline(d: Deadline, now: int): string
  {
    match d.time
    case None => "Due in NaNd"
    case Some(t) => FormatDays(DaysUntil(t, now))
  }

  /** Reading a day count back from a label: the inverse of `FormatDays`. */
  function ReadDays(s: string): Option<int>
  {
    if s == "Due today" then Some(0)
    else if s == "Due tomorrow" then Some(1)
    else if |s| >= 8 && s[..7] == "Due in " && s[|s| - 1] == 'd' && AllDigits(s[7..|s| - 1])
    then Some(ParseDecimal(s[7..|s| - 1]))
    else if |s| >= 10 && s[|s| - 9..] == "d overdue" && AllDigits(s[..|s| - 9])
    then Some(-(ParseDecimal(s[..|s| - 9]) as int))
    else None
  }

  /** The label determines the day count: reading it back gives the count. */
  lemma ReadFormatDays(days: int)
    ensures ReadDays(FormatDays(days)) == Some(days)
  {
    var s := FormatDays(days);
    if days < 0 {
      var digits := NatToString(-days);
      assert s[..|s| - 9] == digits && s[|s| - 9..] == "d overdue";
      assert s[0] == digits[0] && IsDigit(s[0]);
      assert s != "Due today" && s != "Due tomorrow";
      assert s[..7] != "Due in " by { assert s[..7][0] == s[0]; }
      ParseNatToString(-days);
    } else if days >= 2 {
      var digits := NatToString(days);
      assert s[..7] == "Due in " && s[7..|s| - 1] == digits;
      assert s[4] == 'i';
      assert s != "Due today" && s != "Due tomorrow";
      ParseNatToString(days);
    }
  }

  /** Different day counts get different labels. */
  lemma FormatDaysInjective(a: int, b: int)
    requires FormatDays(a) == FormatDays(b)
    ensures a == b
  {
    ReadFormatDays(a);
    ReadFormatDays(b);
  }

  // ---------------------------------------------------------------- percentages

  /** `Math.round(x)`: the nearest integer, halves rounded up. */
  function JsRound(x: real): (r: int)
    ensures r as real - 0.5 <= x < r as real + 0.5
  {
    (x + 0.5).Floor
  }

  /** `getProgressPercent(current, target)`. */
  function ProgressPercent(current: real, target: real): (r: int)
    ensures r <= 100
    ensures target == 0.0 ==> r == 0
    ensures target != 0.0 && current / target >= 1.0 ==> r == 100
    ensures target != 0.0 && current / target >= 0.0 ==> r >= 0
    ensures target != 0.0 && r < 100 ==> r as real - 0.5 <= current / target * 100.0 < r as real + 0.5
    ensures target != 0.0 && r == 100 ==> current / target * 100.0 >= 99.5
  {
    if target == 0.0 then 0
    else
      var p := JsRound(current / target * 100.0);
      if p < 100 then p else 100
  }

  lemma ProgressPercentExamples()
    ensures ProgressPercent(150.0, 100.0) == 100
    ensures ProgressPercent(50.0, 100.0) == 50
    ensures ProgressPercent(3.0, 0.0) == 0
  {
    assert JsRound(50.0) == 50;
  }

  /** `Math.round((part / whole) * 100)` behind a zero guard. */
  function Percent(part: nat, whole: nat): (r: int)
    requires part <= whole
    ensures 0 <= r <= 100
    ensures whole == 0 ==> r == 0
    ensures whole > 0 ==> r as real - 0.5 <= (part as real / whole as real) * 100.0 < r as real + 0.5
    ensures whole > 0 && part == whole ==> r == 100
    ensures part == 0 ==> r == 0
  {
    if whole == 0 then 0
    else
      var q := part as real / whole as real;
      assert 0.0 <= q <= 1.0 by {
        assert q * (whole as real) == part as real;
      }
      assert part == whole ==> q == 1.0 && JsRound(q * 100.0) == 100;
      JsRound(q * 100.0)
  }

  function CompletedKnown(): MindNode -> bool
  {
    (n: MindNode) => !IsRoot(n) && n.completed.Some?
  }

  function CompletedTrue(): MindNode -> bool
  {
    (n: MindNode) => n.completed == Some(true)
  }

  /** `getCompletionPercent(nodes)`: the share of non-root nodes with a `completed` flag that have
      it set, rounded; 0 when no node has the flag. */
  function CompletionPercent(nodes: seq<MindNode>): (r: int)
    ensures 0 <= r <= 100
    ensures Count(nodes, CompletedKnown()) == 0 ==> r == 0
    ensures r == Percent(Count(Filter(nodes, CompletedKnown()), CompletedTrue()), Count(nodes, CompletedKnown()))
  {
    var tasks := Filter(nodes, CompletedKnown());
    Percent(Count(tasks, CompletedTrue()), |tasks|)
  }

  /** A node with only the completion flag of interest. */
  function Sample(id: NodeId, completed: Option<bool>): MindNode
  {
    MindNode(id, None, "", "", Position(0.0, 0.0), false, None, None, None, None, None,
             completed, None, None, None, None, None, "", "", None)
  }

  /** Done, not done and unmarked: one of the two marked nodes is done. */
  lemma CompletionPercentExample()
    ensures CompletionPercent([Sample("a", Some(true)), Sample("b", Some(false)), Sample("c", None)]) == 50
  {
    var nodes := [Sample("a", Some(true)), Sample("b", Some(false)), Sample("c", None)];
    var tasks := Filter(nodes, CompletedKnown());
    assert tasks == [nodes[0], nodes[1]] by {
      assert Filter(nodes[2..], CompletedKnown()) == [];
      assert Filter(nodes[1..], CompletedKnown()) == [nodes[1]] + Filter(nodes[2..], CompletedKnown());
    }
    assert Filter(tasks, CompletedTrue()) == [nodes[0]] by {
      assert Filter(tasks[1..], CompletedTrue()) == [];
    }
    assert JsRound(50.0) == 50;
  }

  // ---------------------------------------------------------------- keyword bucketing

  datatype Category = Work | Personal | Learning | Ideas | Other

  /** The categories in the order `autoOrganize` tries them. */
  const CATEGORY_ORDER: seq<Category> := [Work, Personal, Learning, Ideas]

  function Keywords(c: Category): seq<string>
  {
    match c
    case Work => ["meeting", "project", "deadline", "report", "email", "client", "boss", "team", "sprint", "review"]
    case Personal => ["gym", "fitness", "health", "family", "friend", "dinner", "vacation", "buy", "shopping"]
    case Learning => ["read", "study", "course", "book", "learn", "research", "tutorial", "practice"]
    case Ideas => ["idea", "concept", "maybe", "could", "should", "what if", "explore", "try"]
    case Other => []
  }

  function CategoryColor(c: Category): string
  {
    match c
    case Work => "#3b82f6"
    case Personal => "#ec4899"
    case Learning => "#f59e0b"
    case Ideas => "#8b5cf6"
    case Other => "#6b7280"
  }

  /** Distinct categories get distinct colours, so the colour names the category. */
  lemma CategoryColorInjective(a: Category, b: Category)
    requires CategoryColor(a) == CategoryColor(b)
    ensures a == b
  {
  }

  /** `keywords.some((kw) => text.includes(kw))`. */
  predicate MatchesAny(text: string, keywords: seq<string>)
  {
    exists k :: 0 <= k < |keywords| && Contains(text, keywords[k])
  }

  /** The first category of `cats` one of whose keywords occurs in `text`, or `Other`. */
  function ClassifyFrom(text: string, cats: seq<Category>): (r: Category)
    requires forall k :: 0 <= k < |cats| ==> cats[k] != Other
    ensures r == Other <==> forall k :: 0 <= k < |cats| ==> !MatchesAny(text, Keywords(cats[k]))
    ensures r != Other ==> exists k :: 0 <= k < |cats| && cats[k] == r && MatchesAny(text, Keywords(r))
                                       && forall k' :: 0 <= k' < k ==> !MatchesAny(text, Keywords(cats[k']))
    decreases |cats|
  {
    if cats == [] then Other
    else if MatchesAny(text, Keywords(cats[0])) then cats[0]
    else
      var r := ClassifyFrom(text, cats[1..]);
      ClassifyShift(text, cats, r);
      r
  }

  /** A first category without a match does not change which category the rest picks. */
  lemma ClassifyShift(text: string, cats: seq<Category>, r: Category)
    requires cats != [] && !MatchesAny(text, Keywords(cats[0]))
    requires r == Other <==> forall k :: 0 <= k < |cats[1..]| ==> !MatchesAny(text, Keywords(cats[1..][k]))
    requires r != Other ==> exists k :: 0 <= k < |cats[1..]| && cats[1..][k] == r && MatchesAny(text, Keywords(r))
                                        && forall k' :: 0 <= k' < k ==> !MatchesAny(text, Keywords(cats[1..][k']))
    ensures r == Other <==> forall k :: 0 <= k < |cats| ==> !MatchesAny(text, Keywords(cats[k]))
    ensures r != Other ==> exists k :: 0 <= k < |cats| && cats[k] == r && MatchesAny(text, Keywords(r))
                                       && forall k' :: 0 <= k' < k ==> !MatchesAny(text, Keywords(cats[k']))
  {
    assert forall k :: 1 <= k < |cats| ==> cats[k] == cats[1..][k - 1];
    if r != Other {
      var k :| 0 <= k < |cats[1..]| && cats[1..][k] == r && MatchesAny(text, Keywords(r))
               && forall k' :: 0 <= k' < k ==> !MatchesAny(text, Keywords(cats[1..][k']));
      assert cats[k + 1] == r;
    }
  }

  /** The category `autoOrganize` assigns a label: matching is on the lower-cased label. */
  function Classify(caption: string): Category
  {
    ClassifyFrom(Lower(caption), CATEGORY_ORDER)
  }

  /** The first category that matches wins, whatever later categories match too. */
  lemma ClassifyFirstMatch(text: string, cats: seq<Category>, k: nat)
    requires forall i :: 0 <= i < |cats| ==> cats[i] != Other
    requires k < |cats| && MatchesAny(text, Keywords(cats[k]))
    requires forall i :: 0 <= i < k ==> !MatchesAny(text, Keywords(cats[i]))
    ensures ClassifyFrom(text, cats) == cats[k]
  {
    var r := ClassifyFrom(text, cats);
    var k2 :| 0 <= k2 < |cats| && cats[k2] == r && MatchesAny(text, Keywords(r))
              && forall k' :: 0 <= k' < k2 ==> !MatchesAny(text, Keywords(cats[k']));
    assert k2 == k;
  }

  /** Case does not matter to the bucketing. */
  lemma ClassifyIgnoresCase(s: string)
    ensures Classify(Lower(s)) == Classify(s)
  {
    LowerIdempotent(s);
  }

  /** "Team meeting about project deadline" is work: "meeting" occurs at position 5. */
  lemma ClassifyExample()
    ensures Classify("Team meeting about project deadline") == Work
    ensures CategoryColor(Classify("Team meeting about project deadline")) == "#3b82f6"
  {
    var lower := Lower("Team meeting about project deadline");
    forall i | 5 <= i < 12 ensures lower[i] == "meeting"[i - 5] {
      assert lower[i] == LowerChar("Team meeting about project deadline"[i]);
    }
    assert lower[5..12] == "meeting";
    assert OccursAt(lower, "meeting", 5);
    assert Keywords(Work)[0] == "meeting";
    assert MatchesAny(lower, Keywords(Work));
    ClassifyFirstMatch(lower, CATEGORY_ORDER, 0);
  }

  /** One node of `autoOrganize`'s result: the node with its category's colour. */
  function Recolor(n: MindNode): MindNode
  {
    n.(color := CategoryColor(Classify(n.caption)))
  }

  /** `autoOrganize(nodes)`, stated as a value. */
  function Organized(nodes: seq<MindNode>): seq<MindNode>
  {
    MapAll(nodes, Recolor)
  }

  /** The inner loop of `autoOrganize`: try the categories in order and stop at the first one whose
      keywords occur in the lower-cased label. */
  method CategoryOf(labelLower: string) returns (category: Category)
    ensures category == ClassifyFrom(labelLower, CATEGORY_ORDER)
  {
    category := Other;
    var c := 0;
    while c < |CATEGORY_ORDER|
      invariant 0 <= c <= |CATEGORY_ORDER|
      invariant forall k :: 0 <= k < c ==> !MatchesAny(labelLower, Keywords(CATEGORY_ORDER[k]))
    {
      if MatchesAny(labelLower, Keywords(CATEGORY_ORDER[c])) {
        category := CATEGORY_ORDER[c];
        ClassifyFirstMatch(labelLower, CATEGORY_ORDER, c);
        return;
      }
      c := c + 1;
    }
  }

  /** `autoOrganize(nodes)`: a fresh list holding each node recoloured by its category. */
  method AutoOrganize(nodes: seq<MindNode>) returns (r: seq<MindNode>)
    ensures r == Organized(nodes)
  {
    r := [];
    for i := 0 to |nodes|
      invariant r == Organized(nodes[..i])
    {
      var category := CategoryOf(Lower(nodes[i].caption));
      OrganizedSnoc(nodes, i);
      r := r + [nodes[i].(color := CategoryColor(category))];
    }
    assert nodes[..|nodes|] == nodes;
  }

  /** One more node recoloured at the end of the prefix. */
  lemma OrganizedSnoc(nodes: seq<MindNode>, i: nat)
    requires i < |nodes|
    ensures Organized(nodes[..i + 1]) == Organized(nodes[..i]) + [Recolor(nodes[i])]
  {
    MapAllSnoc(nodes, Recolor, i);
  }

  /** Bucketing keeps the list's length and order and changes nothing but the colour, which is one
      of the five category colours. */
  lemma OrganizedShape(nodes: seq<MindNode>)
    ensures var r := Organized(nodes);
            && |r| == |nodes|
            && (forall i :: 0 <= i < |r| ==> r[i] == nodes[i].(color := r[i].color))
            && (forall i :: 0 <= i < |r| ==> r[i].color in ["#3b82f6", "#ec4899", "#f59e0b", "#8b5cf6", "#6b7280"])
  {
  }

  /** Bucketing twice is bucketing once: the colour depends only on the label. */
  lemma OrganizedIdempotent(nodes: seq<MindNode>)
    ensures Organized(Organized(nodes)) == Organized(nodes)
  {
  }

  // ---------------------------------------------------------------- colour channels

  predicate IsHexDigit(c: char)
  {
    '0' <= c <= '9' || 'a' <= c <= 'f' || 'A' <= c <= 'F'
  }

  function HexDigit(c: char): (d: nat)
    requires IsHexDigit(c)
    ensures d < 16
  {
    if '0' <= c <= '9' then c as int - '0' as int
    else if 'a' <= c <= 'f' then c as int - 'a' as int + 10
    else c as int - 'A' as int + 10
  }

  /** The end of the run of hex digits that starts at `i`. */
  function HexRun(s: string, i: nat): (k: nat)
    requires i <= |s|
    ensures i <= k <= |s|
    ensures forall j :: i <= j < k ==> IsHexDigit(s[j])
    ensures k < |s| ==> !IsHexDigit(s[k])
    decreases |s| - i
  {
    if i < |s| && IsHexDigit(s[i]) then HexRun(s, i + 1) else i
  }

  /** The value of a string of hex digits. */
  function HexValue(s: string): (v: nat)
    requires forall j :: 0 <= j < |s| ==> IsHexDigit(s[j])
    decreases |s|
  {
    if s == [] then 0 else HexValue(s[..|s| - 1]) * 16 + HexDigit(s[|s| - 1])
  }

  /** `parseInt(s, 16)`: leading white space skipped, an optional sign, an optional `0x`/`0X`, then
      the longest run of hex digits; no digit at all is NaN (`None`). */
  function ParseIntHex(s: string): Option<int>
  {
    var a := StartFrom(s, 0);
    var neg := a < |s| && s[a] == '-';
    var b := if a < |s| && (s[a] == '-' || s[a] == '+') then a + 1 else a;
    var c := if b + 1 < |s| && s[b] == '0' && (s[b + 1] == 'x' || s[b + 1] == 'X') then b + 2 else b;
    var e := HexRun(s, c);
    if e == c then None
    else
      var digits := s[c..e];
      assert forall j :: 0 <= j < |digits| ==> IsHexDigit(digits[j]) by {
        forall j | 0 <= j < |digits| ensures IsHexDigit(digits[j]) {
          assert digits[j] == s[c + j];
        }
      }
      var v: int := HexValue(digits);
      Some(if neg then -v else v)
  }

  /** `s.slice(start, end)` for non-negative bounds. */
  function Slice(s: string, start: nat, end: nat): (r: string)
    ensures |r| <= |s| && (end <= |s| && start <= end ==> r == s[start..end])
  {
    var a := if start < |s| then start else |s|;
    var b := if end < |s| then end else |s|;
    if a < b then s[a..b] else []
  }

  /** The three channels `hexToRgba` reads: characters 1-2, 3-4 and 5-6 in base 16. The
      formatting of the `rgba(...)` string is not modelled. */
  function HexChannels(hex: string): (Option<int>, Option<int>, Option<int>)
  {
    (Channel(hex, 1), Channel(hex, 3), Channel(hex, 5))
  }

  /** `parseInt(hex.slice(i, i + 2), 16)`. */
  function Channel(hex: string, i: nat): Option<int>
  {
    ParseIntHex(Slice(hex, i, i + 2))
  }

  lemma {:induction false} HexValueBound(s: string)
    requires forall j :: 0 <= j < |s| ==> IsHexDigit(s[j])
    ensures HexValue(s) < Pow16(|s|)
    decreases |s|
  {
    if s != [] {
      HexValueBound(s[..|s| - 1]);
    }
  }

  function Pow16(n: nat): nat
  {
    if n == 0 then 1 else 16 * Pow16(n - 1)
  }

  /** A channel is a slice of at most two characters, so its magnitude is at most 255; a sign in
      the slice can make it negative. */
  lemma ChannelBound(s: string)
    requires |s| <= 2
    ensures ParseIntHex(s).Some? ==> -255 <= ParseIntHex(s).value <= 255
  {
    var a := StartFrom(s, 0);
    var b := if a < |s| && (s[a] == '-' || s[a] == '+') then a + 1 else a;
    var c := if b + 1 < |s| && s[b] == '0' && (s[b + 1] == 'x' || s[b + 1] == 'X') then b + 2 else b;
    var e := HexRun(s, c);
    if e > c {
      HexValueBound(s[c..e]);
      assert Pow16(|s[c..e]|) <= 256 by {
        assert |s[c..e]| <= 2;
        if |s[c..e]| == 1 { assert Pow16(1) == 16; } else { assert Pow16(2) == 256; }
      }
    }
  }

  /** In a colour written `#rrggbb` in hex digits, each channel is the two-digit base-16 number
      at its place. */
  lemma ChannelOfHexDigits(hex: string, i: nat)
    requires i + 2 <= |hex| && IsHexDigit(hex[i]) && IsHexDigit(hex[i + 1])
    ensures Channel(hex, i) == Some(16 * HexDigit(hex[i]) + HexDigit(hex[i + 1]))
  {
    var s := hex[i..i + 2];
    assert Slice(hex, i, i + 2) == s;
    TwoDigits(s);
  }

  /** Two hex digits read as one base-16 number. */
  lemma TwoDigits(s: string)
    requires |s| == 2 && IsHexDigit(s[0]) && IsHexDigit(s[1])
    ensures ParseIntHex(s) == Some(16 * HexDigit(s[0]) + HexDigit(s[1]))
  {
    assert !IsJsSpace(s[0]);
    assert StartFrom(s, 0) == 0;
    assert s[0] != '-' && s[0] != '+';
    assert s[1] != 'x' && s[1] != 'X';
    assert HexRun(s, 0) == 2;
    assert s[0..2] == s;
    assert s[..1][..0] == [];
    assert HexValue(s[..1]) == HexDigit(s[0]);
    assert HexValue(s) == HexValue(s[..1]) * 16 + HexDigit(s[1]);
  }

  /** Lower-case hex digit. */
  function ToHexDigit(d: nat): (c: char)
    requires d < 16
    ensures IsHexDigit(c) && HexDigit(c) == d
  {
    if d < 10 then ('0' as int + d) as char else ('a' as int + d - 10) as char
  }

  /** Two lower-case hex digits for a channel value. */
  function ToHex2(v: nat): (s: string)
    requires v < 256
    ensures |s| == 2
  {
    [ToHexDigit(v / 16), ToHexDigit(v % 16)]
  }

  /** Writing three channels as `#rrggbb` and reading them back gives the channels. */
  lemma ChannelsRoundTrip(r: nat, g: nat, b: nat)
    requires r < 256 && g < 256 && b < 256
    ensures HexChannels("#" + ToHex2(r) + ToHex2(g) + ToHex2(b)) == (Some(r), Some(g), Some(b))
  {
    var hex := "#" + ToHex2(r) + ToHex2(g) + ToHex2(b);
    assert Slice(hex, 1, 3) == ToHex2(r) by { assert hex[1..3] == ToHex2(r); }
    assert Slice(hex, 3, 5) == ToHex2(g) by { assert hex[3..5] == ToHex2(g); }
    assert Slice(hex, 5, 7) == ToHex2(b) by { assert hex[5..7] == ToHex2(b); }
    Hex2RoundTrip(r);
    Hex2RoundTrip(g);
    Hex2RoundTrip(b);
  }

  lemma Hex2RoundTrip(v: nat)
    requires v < 256
    ensures ParseIntHex(ToHex2(v)) == Some(v)
  {
    TwoDigits(ToHex2(v));
  }
}
