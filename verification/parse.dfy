/** The viewer's reader, `parse_tree_lines`: the two fixed patterns it matches
    (the root line and a tree line) written out as string functions, and the
    stack-based reconstruction of parents from indentation, as a left fold
    over the lines producing a flat list of items. */
module Parse {
  import opened Text
  import opened Glyphs

  // ---------------------------------------------------------------------------
  // The patterns. Both end in `\s+(.+?)` followed by a fixed tail anchored at
  // the end of the line; the lines carry no newline (they come from splitting
  // the text at newlines), so `$` is the end of the line and `.` matches every
  // character.

  /** The trailing group `\s+\(([^)]+)\)` reaching the end of `t`: whitespace,
      an opening parenthesis, a non-empty text without ')', a closing one. */
  predicate IsSizeGroup(t: string) {
    var w := LeadingSpaces(t);
    1 <= w && w + 2 < |t| && t[w] == '(' && t[|t| - 1] == ')' && ')' !in t[w + 1..|t| - 1]
  }

  /** The text inside the parentheses of a size group. */
  function SizeOf(t: string): (size: string)
    requires IsSizeGroup(t)
    ensures size != [] && ')' !in size
    ensures |size| + 3 <= |t| && AllSpace(t[..|t| - |size| - 2])
      && t[|t| - |size| - 2] == '(' && t[|t| - |size| - 1..] == size + ")"
  {
    var w := LeadingSpaces(t);
    assert |t| - (|t| - 1 - (w + 1)) - 2 == w;
    t[w + 1..|t| - 1]
  }

  /** What may follow the name: `/?$` on the root line, the optional size
      group and `$` on a tree line. */
  datatype Tail = RootTail | SizeTail

  predicate TailMatches(tail: Tail, t: string) {
    match tail
    case RootTail => t == [] || t == "/"
    case SizeTail => t == [] || IsSizeGroup(t)
  }

  /** The lazy `(.+?)`: the least end `e >= k` at which the rest matches the
      tail. The end of the line always qualifies. */
  function LazyEnd(tail: Tail, s: string, k: nat): (e: nat)
    requires k <= |s|
    ensures k <= e <= |s| && TailMatches(tail, s[e..])
    ensures forall j :: k <= j < e ==> !TailMatches(tail, s[j..])
    decreases |s| - k
  {
    if TailMatches(tail, s[k..]) then k else LazyEnd(tail, s, k + 1)
  }

  /** The span of the name in `\s+(.+?)<tail>` matched from position `p`.
      The greedy `\s+` takes the whole whitespace run unless that leaves no
      character for the name, in which case it gives one back. */
  function SpacedName(tail: Tail, s: string, p: nat): (r: Option<(nat, nat)>)
    requires p <= |s|
    ensures r.Some? ==>
      p < r.value.0 < r.value.1 <= |s| && AllSpace(s[p..r.value.0])
      && (!IsSpace(s[r.value.0]) || r.value.0 + 1 == |s|)
      && TailMatches(tail, s[r.value.1..])
      && forall j :: r.value.0 < j < r.value.1 ==> !TailMatches(tail, s[j..])
    ensures r.None? <==> LeadingSpaces(s[p..]) == 0 || (p + 1 == |s|)
  {
    var w := LeadingSpaces(s[p..]);
    if w == 0 then None
    else if p + w < |s| then
      assert s[p..p + w] == s[p..][..w];
      assert s[p + w] == s[p..][w];
      Some((p + w, LazyEnd(tail, s, p + w + 1)))
    else if w >= 2 then
      assert AllSpace(s[p..|s| - 1]) by {
        var run := s[p..][..w];
        assert AllSpace(run);
        assert |run| == w == |s| - p;
        assert s[p..|s| - 1] == run[..w - 1];
      }
      Some((|s| - 1, |s|))
    else None
  }

  /** The connector group `[├└]──\s+` at the start of `s`: where it ends. */
  function ConnectorEnd(s: string): (r: Option<nat>)
    ensures r.Some? ==> (3 < r.value <= |s| && (s[0] == Tee || s[0] == Elbow)
      && s[1] == Dash && s[2] == Dash && AllSpace(s[3..r.value])
      && (r.value < |s| ==> !IsSpace(s[r.value])))
  {
    if |s| >= 4 && (s[0] == Tee || s[0] == Elbow) && s[1] == Dash && s[2] == Dash
      && IsSpace(s[3])
    then
      var w := LeadingSpaces(s[3..]);
      assert s[3..3 + w] == s[3..][..w];
      Some(3 + w)
    else None
  }

  /** What a tree line yields: the kind given by its marker, the name, and the
      size text ("" when the line has no size group). */
  datatype Content = Content(isDir: bool, name: string, size: string)

  /** Positions of a match of `([├└]──\s+)?([📁📄])\s+(.+?)(?:\s+\(([^)]+)\))?$`:
      the marker and the name's span. */
  datatype Split = Split(marker: nat, nameStart: nat, nameEnd: nat)

  /** Where the marker `[📁📄]` of a match may sit: at the start of the line,
      or right after the connector group `[├└]──\s+`. */
  predicate MarkerAt(s: string, m: nat) {
    m < |s| && (s[m] == DirMarker || s[m] == FileMarker)
    && (m == 0 || (m > 3 && (s[0] == Tee || s[0] == Elbow) && s[1] == Dash && s[2] == Dash
                   && AllSpace(s[3..m])))
  }

  /** The pattern matches exactly when a marker sits where it may, followed
      by whitespace and at least one more character; the match is then the
      leftmost one, with the name after the whole whitespace run. */
  function ContentSplit(s: string): (r: Option<Split>)
    ensures r.Some? ==> var sp := r.value;
      sp.marker < sp.nameStart < sp.nameEnd <= |s|
      && MarkerAt(s, sp.marker)
      && sp.marker + 1 < sp.nameStart && AllSpace(s[sp.marker + 1..sp.nameStart])
      && (!IsSpace(s[sp.nameStart]) || sp.nameStart + 1 == |s|)
      && TailMatches(SizeTail, s[sp.nameEnd..])
      && forall j :: sp.nameStart < j < sp.nameEnd ==> !TailMatches(SizeTail, s[j..])
    ensures r.Some? <==> exists m: nat :: MarkerAt(s, m) && m + 2 < |s| && IsSpace(s[m + 1])
    ensures (s != [] && (s[0] == DirMarker || s[0] == FileMarker) && |s| > 2
             && IsSpace(s[1]) && !IsSpace(s[2])) ==> r.Some?
  {
    var m := match ConnectorEnd(s) case Some(e) => e case None => 0;
    MarkerPlace(s);
    if m < |s| && (s[m] == DirMarker || s[m] == FileMarker) then
      assert MarkerAt(s, m);
      match SpacedName(SizeTail, s, m + 1)
      case None => None
      case Some((a, b)) => Some(Split(m, a, b))
    else None
  }

  /** With the marker's place and the name's span known, the match is fixed. */
  lemma ContentSplitFrom(s: string, m: nat, a: nat, b: nat)
    requires MarkerAt(s, m) && SpacedName(SizeTail, s, m + 1) == Some((a, b))
    ensures ContentSplit(s) == Some(Split(m, a, b))
  {
    MarkerPlace(s);
  }

  /** The marker has one possible place: where the connector group ends, or
      the start of the line when there is no connector. */
  lemma MarkerPlace(s: string)
    ensures forall m: nat :: MarkerAt(s, m) ==> m == (match ConnectorEnd(s) case Some(e) => e case None => 0)
  {
    forall m: nat | MarkerAt(s, m)
      ensures m == (match ConnectorEnd(s) case Some(e) => e case None => 0)
    {
      if m > 0 {
        assert s[3..][..m - 3] == s[3..m];
        LeadingSpacesExact(s[3..], m - 3);
      }
    }
  }

  /** Matches one lstripped tree line. The size is the parenthesised text
      after the name when the line has a size group, and "" otherwise. */
  function ParseContent(s: string): (r: Option<Content>)
    ensures r.Some? <==> ContentSplit(s).Some?
    ensures r.Some? ==> var sp := ContentSplit(s).value; var t := s[sp.nameEnd..]; var size := r.value.size;
      r.value.isDir == (s[sp.marker] == DirMarker)
      && r.value.name == s[sp.nameStart..sp.nameEnd]
      && SizeGroupText(t, size)
  {
    match ContentSplit(s)
    case None => None
    case Some(sp) =>
      Some(Content(s[sp.marker] == DirMarker, s[sp.nameStart..sp.nameEnd], SizeField(s[sp.nameEnd..])))
  }

  /** `size` is what the text `t` after a name says about the size: nothing
      when `t` is empty, else the text between the parentheses that end `t`,
      after some whitespace. */
  predicate SizeGroupText(t: string, size: string) {
    (t == [] <==> size == [])
    && (t != [] ==> ')' !in size && |size| + 3 <= |t| && AllSpace(t[..|t| - |size| - 2])
                    && t[|t| - |size| - 2] == '(' && t[|t| - |size| - 1..] == size + ")")
  }

  /** The optional size group's text: "" when the line ends at the name. */
  function SizeField(t: string): (size: string)
    requires TailMatches(SizeTail, t)
    ensures SizeGroupText(t, size)
  {
    if t == [] then "" else SizeOf(t)
  }

  /** Matches `📁\s+(.+?)/?$` against the stripped first line: the root's name
      is what follows the whitespace after the marker, less one trailing '/'
      unless the '/' is all there is. */
  function ParseRoot(line: string): (r: Option<string>)
    ensures r.Some? ==> RootLineOf(Strip(line), r.value)
    ensures var s := Strip(line);
      (|s| > 2 && s[0] == DirMarker && IsSpace(s[1])) ==> r.Some?
  {
    var s := Strip(line);
    if s != [] && s[0] == DirMarker then
      match SpacedName(RootTail, s, 1)
      case None => None
      case Some((a, b)) =>
        RootSpan(s, a, b);
        Some(s[a..b])
    else None
  }

  /** `s` is the root marker, whitespace, the name `n`, and possibly one '/'
      that is not itself the name. */
  predicate RootLineOf(s: string, n: string) {
    n != [] && |s| > |n| + 1 && s[0] == DirMarker && !IsSpace(n[0])
    && ((s[|s| - |n|..] == n && AllSpace(s[1..|s| - |n|]) && (s[|s| - 1] == '/' ==> n == "/"))
        || (|s| > |n| + 2 && s[|s| - 1] == '/' && s[|s| - 1 - |n|..|s| - 1] == n
            && AllSpace(s[1..|s| - 1 - |n|])))
  }

  lemma RootSpan(s: string, a: nat, b: nat)
    requires s != [] && s[0] == DirMarker && !IsSpace(s[|s| - 1])
    requires 1 < a < b <= |s| && AllSpace(s[1..a]) && (!IsSpace(s[a]) || a + 1 == |s|)
    requires TailMatches(RootTail, s[b..])
    requires forall j :: a < j < b ==> !TailMatches(RootTail, s[j..])
    ensures RootLineOf(s, s[a..b])
  {
    var n := s[a..b];
    if b == |s| {
      assert s[|s| - |n|..] == n;
      assert s[|s| - 1] == '/' ==> a == |s| - 1 by {
        if a < |s| - 1 {
          assert s[|s| - 1..] == [s[|s| - 1]];
        }
      }
    } else {
      assert s[b..] == "/";
    }
  }

  // ---------------------------------------------------------------------------
  // The reconstruction. Items are numbered in line order; a parent of -1 is
  // the root, whose level is -1.

  /** One parsed tree line, with the position of its parent item. */
  datatype Item = Item(name: string, isDir: bool, size: string, level: nat, parent: int)

  /** A stack entry: the position of a directory item and its level. */
  datatype Frame = Frame(index: int, level: int)

  datatype State = State(items: seq<Item>, stack: seq<Frame>)

  const RootFrame := Frame(-1, -1)

  /** How much of a line's start counts as indentation. `Whitespace` is what
      `lstrip()` removes, as the reader is written; `WhitespaceAndBars` also
      counts the vertical bars of the ancestry prefix, as its comments intend. */
  datatype Lead = Whitespace | WhitespaceAndBars

  predicate IsLead(lead: Lead, c: char) {
    IsSpace(c) || (lead == WhitespaceAndBars && c == Bar)
  }

  /** Length of the longest prefix of `s` made of whitespace and bars. */
  function LeadingMargin(s: string): (k: nat)
    ensures k <= |s|
    ensures forall i :: 0 <= i < k ==> IsLead(WhitespaceAndBars, s[i])
    ensures k < |s| ==> !IsLead(WhitespaceAndBars, s[k])
  {
    if s == [] || !IsLead(WhitespaceAndBars, s[0]) then 0
    else 1 + LeadingMargin(s[1..])
  }

  /** The number of indentation characters at the start of `line`. */
  function Indentation(lead: Lead, line: string): (k: nat)
    ensures k <= |line|
    ensures forall i :: 0 <= i < k ==> IsLead(lead, line[i])
    ensures k < |line| ==> !IsLead(lead, line[k])
  {
    match lead
    case Whitespace =>
      var k := LeadingSpaces(line);
      assert forall i :: 0 <= i < k ==> line[..k][i] == line[i];
      k
    case WhitespaceAndBars => LeadingMargin(line)
  }

  /** The level of a line: its indentation counted in units of four. */
  function Level(lead: Lead, line: string): nat {
    Indentation(lead, line) / 4
  }

  /** What a line contributes, if anything: blank lines and lines whose text
      after the indentation does not match the tree-line pattern are skipped. */
  function Accept(lead: Lead, line: string): (r: Option<Content>)
    ensures r.Some? ==> !AllSpace(line)
    ensures r.Some? <==> !AllSpace(line) && ContentSplit(line[Indentation(lead, line)..]).Some?
  {
    if IsBlank(line) then None else ParseContent(line[Indentation(lead, line)..])
  }

  /** The inner `while`: pops every frame but the bottom one whose level is at
      least `level`. */
  function PopTo(stack: seq<Frame>, level: int): (r: seq<Frame>)
    requires stack != []
    ensures 1 <= |r| <= |stack| && r == stack[..|r|]
    ensures |r| == 1 || r[|r| - 1].level < level
    ensures forall t :: |r| <= t < |stack| ==> stack[t].level >= level
    decreases |stack|
  {
    if |stack| > 1 && stack[|stack| - 1].level >= level then PopTo(stack[..|stack| - 1], level)
    else stack
  }

  /** The body of the loop once a line has matched: pop to the line's level,
      attach the new item to the top frame, and push it if it is a directory. */
  function Push(st: State, ct: Content, level: nat): (r: State)
    requires st.stack != []
    ensures r.stack != [] && r.stack[0] == st.stack[0]
    ensures |r.items| == |st.items| + 1 && r.items[..|st.items|] == st.items
    ensures var x := r.items[|st.items|];
      x.name == ct.name && x.isDir == ct.isDir && x.size == ct.size && x.level == level
  {
    var stack := PopTo(st.stack, level);
    var x := Item(ct.name, ct.isDir, ct.size, level, stack[|stack| - 1].index);
    assert (st.items + [x])[..|st.items|] == st.items;
    State(st.items + [x], Pushed(st.stack, x, |st.items|))
  }

  /** One iteration of the loop over the lines after the first. */
  function Step(lead: Lead, st: State, line: string): State
    requires st.stack != []
  {
    match Accept(lead, line)
    case None => st
    case Some(ct) => Push(st, ct, Level(lead, line))
  }

  /** Position `j` is an open directory as seen from position `i`: a
      directory every later item before `i` sits deeper than. */
  predicate Open(items: seq<Item>, j: int, i: int) {
    0 <= j < i <= |items| && items[j].isDir
    && forall k :: j < k < i ==> items[k].level > items[j].level
  }

  /** Where item `i` belongs: `p` is the nearest open directory before it with
      a smaller level, or -1 (the root, level -1) when there is none. */
  predicate IsParent(items: seq<Item>, i: int, p: int) {
    0 <= i < |items| && -1 <= p < i
    && (p >= 0 ==> Open(items, p, i) && items[p].level < items[i].level)
    && forall j :: p < j < i && Open(items, j, i) ==> items[j].level >= items[i].level
  }

  predicate ParentsOk(items: seq<Item>) {
    forall i :: 0 <= i < |items| ==> IsParent(items, i, items[i].parent)
  }

  /** Positions and levels increase up the stack. */
  predicate Sorted(stack: seq<Frame>) {
    forall i, t :: 0 <= i < t < |stack| ==> stack[i].index < stack[t].index && stack[i].level < stack[t].level
  }

  /** Every frame above the bottom one is an open directory, with its level. */
  predicate FramesOpen(items: seq<Item>, stack: seq<Frame>) {
    forall t :: 1 <= t < |stack| ==> Open(items, stack[t].index, |items|) && stack[t].level == items[stack[t].index].level
  }

  /** Every open directory has a frame. */
  predicate FramesComplete(items: seq<Item>, stack: seq<Frame>) {
    forall j :: 0 <= j < |items| && Open(items, j, |items|) ==> exists t :: 1 <= t < |stack| && stack[t].index == j
  }

  /** The stack holds the root frame, then exactly the open directories, in
      increasing position and increasing level. */
  predicate StackInv(items: seq<Item>, stack: seq<Frame>) {
    |stack| >= 1 && stack[0] == RootFrame && Sorted(stack) && FramesOpen(items, stack) && FramesComplete(items, stack)
  }

  /** A position has at most one parent. */
  lemma ParentUnique(items: seq<Item>, i: int, p: int, q: int)
    requires IsParent(items, i, p) && IsParent(items, i, q)
    ensures p == q
  {
  }

  /** Being a parent only looks at the items up to the child. */
  lemma IsParentPrefix(items: seq<Item>, more: seq<Item>, i: int, p: int)
    requires 0 <= i < |items|
    ensures IsParent(items + more, i, p) <==> IsParent(items, i, p)
  {
    var all := items + more;
    assert forall k :: 0 <= k < |items| ==> all[k] == items[k];
    assert forall j :: Open(all, j, i) <==> Open(items, j, i);
  }

  /** Which directories are open once `x` is appended. */
  lemma OpenAfter(items: seq<Item>, x: Item)
    ensures var n := |items|;
      (forall j :: 0 <= j < n ==>
         (Open(items + [x], j, n + 1) <==> Open(items, j, n) && items[j].level < x.level))
      && (Open(items + [x], n, n + 1) <==> x.isDir)
  {
    var all := items + [x];
    var n := |items|;
    assert all[n] == x;
    forall j | 0 <= j < n
      ensures Open(all, j, n + 1) <==> Open(items, j, n) && items[j].level < x.level
    {
      assert all[j] == items[j];
      assert forall k :: j < k < n ==> all[k] == items[k];
    }
  }

  /** The frames left after popping to `level` are exactly those below it. */
  lemma PoppedLevels(stack: seq<Frame>, level: int)
    requires stack != [] && Sorted(stack)
    ensures var r := PopTo(stack, level);
      forall t :: 1 <= t < |stack| ==> (t < |r| <==> stack[t].level < level)
  {
    var r := PopTo(stack, level);
    forall t | 1 <= t < |stack|
      ensures t < |r| <==> stack[t].level < level
    {
      if t < |r| - 1 {
        assert stack[t].level < stack[|r| - 1].level;
      } else if t == |r| - 1 {
        assert r[t] == stack[t];
      }
    }
  }

  /** A frame above the top frame left after popping to `level` was popped,
      so its level is at least `level`. */
  lemma PoppedFrame(stack: seq<Frame>, level: int, t: int)
    requires stack != [] && Sorted(stack) && 0 <= t < |stack|
    requires var r := PopTo(stack, level); r[|r| - 1].index < stack[t].index
    ensures stack[t].level >= level
  {
    var r := PopTo(stack, level);
    var m := |r| - 1;
    assert r[m] == stack[m];
    SortedAbove(stack, m, t);
  }

  /** A frame whose position exceeds that of frame `m` lies above it. */
  lemma SortedAbove(stack: seq<Frame>, m: int, t: int)
    requires Sorted(stack) && 0 <= m < |stack| && 0 <= t < |stack|
    requires stack[m].index < stack[t].index
    ensures m < t
  {
  }

  /** The top frame left after popping to `level` is an open directory below
      that level, or the root frame. */
  lemma PoppedTop(items: seq<Item>, stack: seq<Frame>, level: int)
    requires StackInv(items, stack)
    ensures var r := PopTo(stack, level); var p := r[|r| - 1].index;
      -1 <= p < |items| && (p >= 0 ==> Open(items, p, |items|) && items[p].level < level)
  {
    var r := PopTo(stack, level);
    assert r[|r| - 1] == stack[|r| - 1];
  }

  /** Appending leaves the open directories before `i <= |items|` unchanged. */
  lemma OpenPrefix(items: seq<Item>, more: seq<Item>, i: int)
    requires i <= |items|
    ensures forall j :: Open(items + more, j, i) <==> Open(items, j, i)
  {
    var all := items + more;
    assert forall k :: 0 <= k < |items| ==> all[k] == items[k];
  }

  /** A new item whose parent is an open directory below its level, with
      every open directory after that parent at or beyond its level, has the
      parent `IsParent` describes. */
  lemma AppendParent(items: seq<Item>, x: Item)
    requires -1 <= x.parent < |items|
    requires x.parent >= 0 ==> Open(items, x.parent, |items|) && items[x.parent].level < x.level
    requires DeeperAfter(items, x.parent, x.level)
    ensures IsParent(items + [x], |items|, x.parent)
  {
    var n, all := |items|, items + [x];
    OpenPrefix(items, [x], n);
    assert forall k :: 0 <= k < n ==> all[k] == items[k];
  }

  /** The parent the loop gives a new item is an open directory below the
      item's level, and every open directory after it is at or beyond that
      level. */
  lemma NewItemParent(items: seq<Item>, stack: seq<Frame>, x: Item)
    requires StackInv(items, stack)
    requires var r := PopTo(stack, x.level); x.parent == r[|r| - 1].index
    ensures -1 <= x.parent < |items|
    ensures x.parent >= 0 ==> Open(items, x.parent, |items|) && items[x.parent].level < x.level
    ensures DeeperAfter(items, x.parent, x.level)
  {
    PoppedTop(items, stack, x.level);
    PoppedAbove(items, stack, x.level, x.parent);
  }

  /** Every open directory after position `p` is at level `level` or deeper. */
  predicate DeeperAfter(items: seq<Item>, p: int, level: int) {
    forall j :: p < j < |items| && Open(items, j, |items|) ==> items[j].level >= level
  }

  /** Every open directory above the top frame `p` left after popping to
      `level` is at or beyond that level. */
  lemma PoppedAbove(items: seq<Item>, stack: seq<Frame>, level: int, p: int)
    requires StackInv(items, stack)
    requires var r := PopTo(stack, level); p == r[|r| - 1].index
    ensures DeeperAfter(items, p, level)
  {
    forall j | p < j < |items| && Open(items, j, |items|)
      ensures items[j].level >= level
    {
      var t :| 1 <= t < |stack| && stack[t].index == j;
      PoppedFrame(stack, level, t);
      assert stack[t].level == items[j].level;
    }
  }

  /** Earlier items keep their parents when an item with a correct parent is appended. */
  lemma ParentsOkAppend(items: seq<Item>, x: Item)
    requires ParentsOk(items) && IsParent(items + [x], |items|, x.parent)
    ensures ParentsOk(items + [x])
  {
    forall i | 0 <= i < |items|
      ensures IsParent(items + [x], i, (items + [x])[i].parent)
    {
      assert (items + [x])[i] == items[i];
      IsParentPrefix(items, [x], i, items[i].parent);
    }
  }

  /** The stack after handling item `x`, appended at position `n`. */
  function Pushed(stack: seq<Frame>, x: Item, n: int): seq<Frame>
    requires stack != []
  {
    var r := PopTo(stack, x.level);
    if x.isDir then r + [Frame(n, x.level)] else r
  }

  /** After popping and pushing, every frame above the root is an open
      directory with its level. */
  lemma PushedFramesOpen(items: seq<Item>, stack: seq<Frame>, x: Item)
    requires StackInv(items, stack)
    ensures var all, s := items + [x], Pushed(stack, x, |items|);
      forall t :: 1 <= t < |s| ==> Open(all, s[t].index, |all|) && s[t].level == all[s[t].index].level
  {
    var n, all := |items|, items + [x];
    var r := PopTo(stack, x.level);
    var s := Pushed(stack, x, n);
    PoppedLevels(stack, x.level);
    OpenAfter(items, x);
    forall t | 1 <= t < |s|
      ensures Open(all, s[t].index, |all|) && s[t].level == all[s[t].index].level
    {
      if t < |r| {
        assert s[t] == stack[t];
        assert all[stack[t].index] == items[stack[t].index];
      }
    }
  }

  /** After popping and pushing, positions and levels still increase up the stack. */
  lemma PushedFramesSorted(stack: seq<Frame>, x: Item, n: int)
    requires stack != [] && stack[0] == RootFrame && Sorted(stack)
    requires forall t :: 0 <= t < |stack| ==> stack[t].index < n
    ensures Sorted(Pushed(stack, x, n))
  {
    var r := PopTo(stack, x.level);
    PoppedLevels(stack, x.level);
    assert Sorted(r) by {
      assert forall t :: 0 <= t < |r| ==> r[t] == stack[t];
    }
    if x.isDir {
      var s := r + [Frame(n, x.level)];
      assert forall t :: 0 <= t < |r| ==> s[t] == r[t];
      assert forall t :: 0 <= t < |r| ==> r[t].index < n && r[t].level < x.level by {
        forall t | 0 <= t < |r|
          ensures r[t].index < n && r[t].level < x.level
        {
          assert r[t] == stack[t];
        }
      }
    }
  }

  /** An open directory after appending `x` has a frame on the new stack. */
  lemma OpenOnPushed(items: seq<Item>, stack: seq<Frame>, x: Item, j: int)
    requires stack != [] && Sorted(stack) && FramesOpen(items, stack) && FramesComplete(items, stack)
    requires Open(items + [x], j, |items| + 1)
    ensures var s := Pushed(stack, x, |items|); exists t :: 1 <= t < |s| && s[t].index == j
  {
    var n := |items|;
    var r := PopTo(stack, x.level);
    var s := Pushed(stack, x, n);
    OpenAfter(items, x);
    if j < n {
      PoppedLevels(stack, x.level);
      assert Open(items, j, n) && items[j].level < x.level;
      var t :| 1 <= t < |stack| && stack[t].index == j;
      assert stack[t].level == items[j].level;
      assert t < |r|;
      assert s[t] == stack[t];
    } else {
      assert s[|r|].index == j;
    }
  }

  /** After popping and pushing, every open directory is on the stack. */
  lemma PushedFramesComplete(items: seq<Item>, stack: seq<Frame>, x: Item)
    requires stack != [] && Sorted(stack) && FramesOpen(items, stack) && FramesComplete(items, stack)
    ensures FramesComplete(items + [x], Pushed(stack, x, |items|))
  {
    var all := items + [x];
    forall j | 0 <= j < |all| && Open(all, j, |all|)
      ensures exists t :: 1 <= t < |Pushed(stack, x, |items|)| && Pushed(stack, x, |items|)[t].index == j
    {
      OpenOnPushed(items, stack, x, j);
    }
  }

  /** Popping, then pushing a new directory, keeps the stack invariant. */
  lemma StackAfter(items: seq<Item>, stack: seq<Frame>, x: Item)
    requires StackInv(items, stack)
    ensures StackInv(items + [x], Pushed(stack, x, |items|))
  {
    PushedFramesOpen(items, stack, x);
    assert forall t :: 0 <= t < |stack| ==> stack[t].index < |items| by {
      forall t | 0 <= t < |stack|
        ensures stack[t].index < |items|
      {
        if t > 0 {
          assert Open(items, stack[t].index, |items|);
        }
      }
    }
    PushedFramesSorted(stack, x, |items|);
    PushedFramesComplete(items, stack, x);
  }

  /** Handling a matched line keeps the stack equal to the open directories
      and gives the new item the parent `IsParent` describes. */
  lemma PushKeepsInv(st: State, ct: Content, level: nat)
    requires StackInv(st.items, st.stack) && ParentsOk(st.items)
    ensures StackInv(Push(st, ct, level).items, Push(st, ct, level).stack)
    ensures ParentsOk(Push(st, ct, level).items)
  {
    var x := PushUnfold(st, ct, level);
    AppendKeepsInv(st.items, st.stack, x);
  }

  /** `Push` appends one item, whose parent is the top frame left after
      popping to its level. */
  lemma PushUnfold(st: State, ct: Content, level: nat) returns (x: Item)
    requires st.stack != []
    ensures x.level == level && var r := PopTo(st.stack, level); x.parent == r[|r| - 1].index
    ensures Push(st, ct, level) == State(st.items + [x], Pushed(st.stack, x, |st.items|))
  {
    var r := PopTo(st.stack, level);
    x := Item(ct.name, ct.isDir, ct.size, level, r[|r| - 1].index);
  }

  /** Appending an item whose parent is the top frame left after popping to
      its level keeps the invariant and the parent rule. */
  lemma AppendKeepsInv(items: seq<Item>, stack: seq<Frame>, x: Item)
    requires StackInv(items, stack) && ParentsOk(items)
    requires var r := PopTo(stack, x.level); x.parent == r[|r| - 1].index
    ensures StackInv(items + [x], Pushed(stack, x, |items|)) && ParentsOk(items + [x])
  {
    StackAfter(items, stack, x);
    NewItemParent(items, stack, x);
    AppendParent(items, x);
    ParentsOkAppend(items, x);
  }

  lemma StepKeepsInv(lead: Lead, st: State, line: string)
    requires StackInv(st.items, st.stack) && ParentsOk(st.items)
    ensures StackInv(Step(lead, st, line).items, Step(lead, st, line).stack)
    ensures ParentsOk(Step(lead, st, line).items)
  {
    if Accept(lead, line).Some? {
      PushKeepsInv(st, Accept(lead, line).value, Level(lead, line));
    }
  }

  /** The loop over the lines after the first. */
  function Run(lead: Lead, lines: seq<string>): (st: State)
    ensures StackInv(st.items, st.stack) && ParentsOk(st.items)
  {
    if lines == [] then State([], [RootFrame])
    else
      var prev := Run(lead, lines[..|lines| - 1]);
      StepKeepsInv(lead, prev, lines[|lines| - 1]);
      Step(lead, prev, lines[|lines| - 1])
  }

  /** A line that contributes an item: its content and level. */
  datatype Reading = Reading(content: Content, level: nat)

  /** What one line contributes: its reading if it is accepted. */
  function Contribution(lead: Lead, line: string): seq<Reading> {
    match Accept(lead, line)
    case None => []
    case Some(ct) => [Reading(ct, Level(lead, line))]
  }

  lemma AcceptedContribution(lead: Lead, line: string, ct: Content)
    requires Accept(lead, line) == Some(ct)
    ensures Contribution(lead, line) == [Reading(ct, Level(lead, line))]
  {
  }

  lemma RejectedContribution(lead: Lead, line: string)
    requires Accept(lead, line).None?
    ensures Contribution(lead, line) == []
  {
  }

  /** The contributions of the lines, in order. */
  function Readings(lead: Lead, lines: seq<string>): seq<Reading> {
    if lines == [] then []
    else Readings(lead, lines[..|lines| - 1]) + Contribution(lead, lines[|lines| - 1])
  }

  /** The reading an item was made from. */
  function ItemReading(x: Item): Reading {
    Reading(Content(x.isDir, x.name, x.size), x.level)
  }

  function ItemReadings(items: seq<Item>): (rs: seq<Reading>)
    ensures |rs| == |items| && forall i :: 0 <= i < |items| ==> rs[i] == ItemReading(items[i])
  {
    seq(|items|, i requires 0 <= i < |items| => ItemReading(items[i]))
  }

  /** A step adds the item of an accepted line and nothing otherwise. */
  lemma StepReadings(lead: Lead, st: State, line: string)
    requires st.stack != []
    ensures ItemReadings(Step(lead, st, line).items) == ItemReadings(st.items) + Contribution(lead, line)
  {
    var a := Accept(lead, line);
    if a.None? {
      StepRejected(lead, st, line);
      RejectedContribution(lead, line);
    } else {
      var ct, level := a.value, Level(lead, line);
      StepAccepted(lead, st, line, ct);
      AcceptedContribution(lead, line, ct);
      var r := Push(st, ct, level);
      var x := r.items[|st.items|];
      assert r.items == st.items + [x];
      assert ItemReading(x) == Reading(ct, level);
      ItemReadingsSnoc(st.items, x);
    }
  }

  lemma StepAccepted(lead: Lead, st: State, line: string, ct: Content)
    requires st.stack != [] && Accept(lead, line) == Some(ct)
    ensures Step(lead, st, line) == Push(st, ct, Level(lead, line))
  {
  }

  lemma StepRejected(lead: Lead, st: State, line: string)
    requires st.stack != [] && Accept(lead, line).None?
    ensures Step(lead, st, line) == st
  {
  }

  lemma ItemReadingsSnoc(items: seq<Item>, x: Item)
    ensures ItemReadings(items + [x]) == ItemReadings(items) + [ItemReading(x)]
  {
  }

  /** The items are the accepted lines, in order, with their contents and levels. */
  lemma {:induction false} ItemsAreReadings(lead: Lead, lines: seq<string>)
    ensures ItemReadings(Run(lead, lines).items) == Readings(lead, lines)
  {
    if lines != [] {
      var init := lines[..|lines| - 1];
      ItemsAreReadings(lead, init);
      StepReadings(lead, Run(lead, init), lines[|lines| - 1]);
    }
  }

  /** What the parser returns: the root's name and the items below it. */
  datatype ParsedTree = ParsedTree(rootName: string, items: seq<Item>)

  /** The reader with a given notion of indentation: nothing for no lines or
      a first line that is not a directory root; otherwise the root and the
      items of the later lines. */
  function ParseWith(lead: Lead, lines: seq<string>): (r: Option<ParsedTree>)
    ensures r.None? <==> lines == [] || ParseRoot(lines[0]).None?
    ensures r.Some? ==> (r.value.rootName == ParseRoot(lines[0]).value
      && RootLineOf(Strip(lines[0]), r.value.rootName)
      && ParentsOk(r.value.items)
      && |r.value.items| == |Readings(lead, lines[1..])|)
  {
    if lines == [] then None
    else
      match ParseRoot(lines[0])
      case None => None
      case Some(name) =>
        ItemsAreReadings(lead, lines[1..]);
        Some(ParsedTree(name, Run(lead, lines[1..]).items))
  }

  /** `parse_tree_lines` as written: indentation is what `lstrip()` removes. */
  function ParseTreeLines(lines: seq<string>): (r: Option<ParsedTree>)
    ensures r.None? <==> lines == [] || ParseRoot(lines[0]).None?
    ensures r.Some? ==> ParentsOk(r.value.items)
  {
    ParseWith(Whitespace, lines)
  }

  /** The reader its comments describe: bars count as indentation too. */
  function ParseTreeLinesBarAware(lines: seq<string>): (r: Option<ParsedTree>)
    ensures r.None? <==> lines == [] || ParseRoot(lines[0]).None?
    ensures r.Some? ==> ParentsOk(r.value.items)
  {
    ParseWith(WhitespaceAndBars, lines)
  }

  /** A file never becomes a parent, and every parent comes before its child
      with a smaller level. */
  lemma ParentsAreEarlierDirs(lead: Lead, lines: seq<string>)
    requires ParseWith(lead, lines).Some?
    ensures var items := ParseWith(lead, lines).value.items;
      forall i :: 0 <= i < |items| ==>
        -1 <= items[i].parent < i
        && (items[i].parent >= 0 ==> items[items[i].parent].isDir
                                     && items[items[i].parent].level < items[i].level)
  {
    var items := ParseWith(lead, lines).value.items;
    assert forall i :: 0 <= i < |items| ==> IsParent(items, i, items[i].parent);
  }
}
