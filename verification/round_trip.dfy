/** What the reader recovers from the writer's lines. The reader as written
    keeps exactly the lines whose ancestry prefix holds no bar, and gives each
    of them the parent it had in the tree; the reader that also counts bars as
    indentation recovers every node with its parent. */
module RoundTrip {
  import opened Text
  import opened Glyphs
  import opened DirTree
  import opened SizeFormat
  import opened Render
  import opened Parse

  // ---------------------------------------------------------------------------
  // Facts about the matching functions on known shapes of text.

  lemma {:induction false} LeadingMarginExact(s: string, k: nat)
    requires k <= |s| && (forall i :: 0 <= i < k ==> IsLead(WhitespaceAndBars, s[i]))
    requires k < |s| ==> !IsLead(WhitespaceAndBars, s[k])
    ensures LeadingMargin(s) == k
  {
    if k > 0 {
      LeadingMarginExact(s[1..], k - 1);
    }
  }

  /** The lazy search stops at the first end whose rest matches. */
  lemma {:induction false} LazyEndExact(tail: Tail, s: string, k: nat, e: nat)
    requires k <= e <= |s| && TailMatches(tail, s[e..])
    requires forall j :: k <= j < e ==> !TailMatches(tail, s[j..])
    ensures LazyEnd(tail, s, k) == e
    decreases e - k
  {
    if k < e {
      LazyEndExact(tail, s, k + 1, e);
    }
  }

  /** A name the reader gives back unchanged: not empty, no whitespace. */
  predicate PlainName(s: string) {
    s != [] && NoSpace(s)
  }

  /** The text inside the parentheses after a node's name, or "". */
  function SizeText(c: Config, n: Node): (t: string)
    ensures SizeSuffix(c, n) == (if t == [] then [] else " (" + t + ")")
  {
    if c.includeSize && n.File? then FormatSize(n.size) else ""
  }

  lemma SizeSuffixMatches(c: Config, n: Node)
    ensures TailMatches(SizeTail, SizeSuffix(c, n))
    ensures SizeSuffix(c, n) != [] ==> SizeOf(SizeSuffix(c, n)) == SizeText(c, n)
  {
    var t, suffix := SizeText(c, n), SizeSuffix(c, n);
    if t != [] {
      assert suffix[..1] == " ";
      LeadingSpacesExact(suffix, 1);
      assert suffix[2..|suffix| - 1] == t;
      assert IsSizeGroup(suffix);
    }
  }

  /** Text opening with a non-space is neither empty nor a size group. */
  lemma NoTailAt(t: string)
    requires t != [] && !IsSpace(t[0])
    ensures !TailMatches(SizeTail, t)
  {
    LeadingSpacesExact(t, 0);
  }

  /** No end inside a stretch of non-space characters leaves a size group or
      nothing behind. */
  lemma NoTailWithin(s: string, k: nat, e: nat)
    requires k <= e <= |s|
    requires forall j :: k <= j < e ==> !IsSpace(s[j])
    ensures forall j :: k <= j < e ==> !TailMatches(SizeTail, s[j..])
  {
    forall j | k <= j < e
      ensures !TailMatches(SizeTail, s[j..])
    {
      NoTailAt(s[j..]);
    }
  }

  /** One space at `p`, then a plain name, then text the size group matches:
      the name group starts after the space and stops at the end of the name. */
  lemma SpacedPlainName(s: string, p: nat, name: string)
    requires PlainName(name) && p + 1 + |name| <= |s|
    requires s[p] == ' ' && s[p + 1..p + 1 + |name|] == name
    requires TailMatches(SizeTail, s[p + 1 + |name|..])
    ensures SpacedName(SizeTail, s, p) == Some((p + 1, p + 1 + |name|))
  {
    var e: nat := p + 1 + |name|;
    assert forall j :: p + 1 <= j < e ==> s[j] == name[j - p - 1];
    assert s[p..][..1] == " " && s[p..][1] == name[0];
    LeadingSpacesExact(s[p..], 1);
    NoTailWithin(s, p + 2, e);
    LazyEndExact(SizeTail, s, p + 2, e);
  }

  /** The part of a node's line after its connector. */
  function Labelled(c: Config, n: Node): (t: string)
    ensures var e := 2 + |n.name|;
      e <= |t| && t[0] == Marker(n.Dir?) && t[1] == ' ' && t[2..e] == n.name && t[e..] == SizeSuffix(c, n)
  {
    [Marker(n.Dir?)] + " " + n.name + SizeSuffix(c, n)
  }

  /** A node's line after its ancestry prefix. */
  function Connected(c: Config, n: Node, isLast: bool): (t: string)
    ensures t == Connector(isLast) + Labelled(c, n)
    ensures |t| >= 5 && t[..4] == Connector(isLast) && t[4..] == Labelled(c, n)
  {
    Connector(isLast) + Labelled(c, n)
  }

  /** The connector group of a connected line ends at the marker. */
  lemma ConnectorOfConnected(c: Config, n: Node, isLast: bool)
    ensures ConnectorEnd(Connected(c, n, isLast)) == Some(4)
  {
    var s := Connected(c, n, isLast);
    assert s[3] == ' ' && s[4] == Marker(n.Dir?);
    assert s[3..][..1] == " " && s[3..][1] == s[4];
    LeadingSpacesExact(s[3..], 1);
  }

  lemma ConnectedSplit(c: Config, n: Node, isLast: bool)
    requires PlainName(n.name)
    ensures ContentSplit(Connected(c, n, isLast)) == Some(Split(4, 6, 6 + |n.name|))
  {
    ConnectedFacts(c, n, isLast);
    SplitOfShape(Connected(c, n, isLast), n.name);
  }

  /** A connector, a marker, one space, a plain name and a size tail: the
      match finds the marker at 4 and the name right after the space. */
  lemma SplitOfShape(s: string, name: string)
    requires PlainName(name) && 6 + |name| <= |s| && MarkerAt(s, 4) && s[5] == ' '
    requires s[5 + 1..5 + 1 + |name|] == name && TailMatches(SizeTail, s[5 + 1 + |name|..])
    ensures ContentSplit(s) == Some(Split(4, 6, 6 + |name|))
  {
    SpacedPlainName(s, 5, name);
    ContentSplitFrom(s, 4, 6, 6 + |name|);
  }

  /** Where the marker, the name and the size suffix sit in a node's line. */
  lemma ConnectedFacts(c: Config, n: Node, isLast: bool)
    ensures var s, e := Connected(c, n, isLast), 6 + |n.name|;
      e <= |s| && MarkerAt(s, 4) && s[5] == ' ' && s[5 + 1..5 + 1 + |n.name|] == n.name
      && TailMatches(SizeTail, s[5 + 1 + |n.name|..])
  {
    var s := Connected(c, n, isLast);
    var e: nat := 6 + |n.name|;
    assert s[4] == Marker(n.Dir?) && s[5] == ' ' && s[6..e] == n.name && s[e..] == SizeSuffix(c, n);
    SizeSuffixMatches(c, n);
    assert s[3..4] == [s[3]];
  }

  /** A node's line after its ancestry prefix matches the tree-line pattern
      and yields the node's kind, name and size text. */
  lemma ConnectedLineParses(c: Config, n: Node, isLast: bool)
    requires PlainName(n.name)
    ensures ParseContent(Connected(c, n, isLast)) == Some(Content(n.Dir?, n.name, SizeText(c, n)))
  {
    var s := Connected(c, n, isLast);
    var e: nat := 6 + |n.name|;
    ConnectedSplit(c, n, isLast);
    assert s[4] == Marker(n.Dir?) && s[6..e] == n.name && s[e..] == SizeSuffix(c, n);
    SizeSuffixMatches(c, n);
  }

  /** `Indentation` is the one length with indentation characters before it
      and none at it. */
  lemma IndentationExact(lead: Lead, line: string, k: nat)
    requires k <= |line| && (forall i :: 0 <= i < k ==> IsLead(lead, line[i]))
    requires k < |line| ==> !IsLead(lead, line[k])
    ensures Indentation(lead, line) == k
  {
  }

  predicate AllLast(flags: seq<bool>) {
    forall j :: 0 <= j < |flags| ==> flags[j]
  }

  /** A visit's line survives the reader as written when every ancestor
      below the root is a last sibling, so that its prefix holds no bar. */
  predicate Survives(v: Visit) {
    AllLast(Ancestors(v.lasts))
  }

  /** The lines a reader keeps: all of them when bars count as indentation,
      only the bar-free ones otherwise. */
  predicate Kept(lead: Lead, v: Visit) {
    lead == WhitespaceAndBars || Survives(v)
  }

  /** What the reader should get from a visit's line. */
  function ReadingOf(c: Config, v: Visit): Reading
    requires |v.lasts| >= 1
  {
    Reading(Content(v.node.Dir?, v.node.name, SizeText(c, v.node)), |v.lasts| - 1)
  }

  /** Text behind a run of indentation characters, opening with neither
      whitespace nor a bar, is what the reader matches. */
  predicate AllLead(lead: Lead, P: string) {
    forall i :: 0 <= i < |P| ==> IsLead(lead, P[i])
  }

  lemma IndentedAccept(lead: Lead, P: string, t: string)
    requires AllLead(lead, P)
    requires t != [] && !IsSpace(t[0]) && t[0] != Bar
    ensures Indentation(lead, P + t) == |P|
    ensures Accept(lead, P + t) == ParseContent(t)
  {
    var line := P + t;
    assert forall i :: 0 <= i < |P| ==> line[i] == P[i];
    IndentationExact(lead, line, |P|);
    assert line[|P|..] == t;
    assert !AllSpace(line) by {
      assert !IsSpace(line[|P|]);
    }
  }

  lemma KeptPrefix(lead: Lead, v: Visit)
    requires Kept(lead, v)
    ensures AllLead(lead, IndentOf(Ancestors(v.lasts)))
  {
    var anc := Ancestors(v.lasts);
    forall i | 0 <= i < |IndentOf(anc)|
      ensures IsLead(lead, IndentOf(anc)[i])
    {
      IndentAt(anc, i);
    }
  }

  /** A visit's line is its ancestry prefix followed by the connected part. */
  lemma RefLineSplit(c: Config, v: Visit)
    ensures RefLine(c, v) == IndentOf(Ancestors(v.lasts)) + Connected(c, v.node, IsLastSibling(v.lasts))
  {
  }

  /** A kept visit's line is accepted with the node's kind, name and size
      text, at its depth below the root's children. */
  lemma KeptLineAccepted(lead: Lead, c: Config, v: Visit)
    requires |v.lasts| >= 1 && PlainName(v.node.name) && Kept(lead, v)
    ensures var line := RefLine(c, v);
      Accept(lead, line) == Some(ReadingOf(c, v).content) && Level(lead, line) == |v.lasts| - 1
  {
    var P := IndentOf(Ancestors(v.lasts));
    var t := Connected(c, v.node, IsLastSibling(v.lasts));
    RefLineSplit(c, v);
    assert |P| / 4 == |v.lasts| - 1;
    KeptPrefix(lead, v);
    IndentedAccept(lead, P, t);
    ConnectedLineParses(c, v.node, IsLastSibling(v.lasts));
  }

  /** A line whose text after the indentation opens with a bar matches
      neither the connector nor a marker. */
  lemma BarTextRejected(t: string)
    requires t != [] && t[0] == Bar
    ensures ParseContent(t).None?
  {
  }

  /** The first ancestor that is not a last sibling. */
  function FirstNotLast(flags: seq<bool>): (j: nat)
    requires !AllLast(flags)
    ensures j < |flags| && !flags[j] && AllLast(flags[..j])
  {
    if !flags[0] then 0
    else
      var j := 1 + FirstNotLast(flags[1..]);
      assert forall k :: 1 <= k < j ==> flags[..j][k] == flags[1..][..j - 1][k - 1];
      j
  }

  /** The reader as written skips the line of a visit below an ancestor that
      is not a last sibling: the bar of the topmost such ancestor stops its
      indentation, and a bar is neither a connector nor a marker. */
  lemma DroppedLineSkipped(c: Config, v: Visit)
    requires !Survives(v)
    ensures Accept(Whitespace, RefLine(c, v)).None?
  {
    var anc := Ancestors(v.lasts);
    var line := RefLine(c, v);
    var k := 4 * FirstNotLast(anc);
    assert line[..|IndentOf(anc)|] == IndentOf(anc);
    BlanksThenBar(anc, line, k);
    IndentationExact(Whitespace, line, k);
    BarTextRejected(line[k..]);
  }

  /** A line under the ancestry prefix of `anc` starts with blanks up to the
      bar of the first ancestor that is not a last sibling. */
  lemma BlanksThenBar(anc: seq<bool>, line: string, k: nat)
    requires !AllLast(anc) && k == 4 * FirstNotLast(anc)
    requires |IndentOf(anc)| <= |line| && line[..|IndentOf(anc)|] == IndentOf(anc)
    ensures k < |line| && line[k] == Bar
    ensures forall i :: 0 <= i < k ==> IsLead(Whitespace, line[i])
  {
    var P, j := IndentOf(anc), FirstNotLast(anc);
    forall i | 0 <= i < k
      ensures IsLead(Whitespace, line[i])
    {
      IndentAt(anc, i);
      assert anc[..j][i / 4] == anc[i / 4];
      assert line[i] == P[i];
    }
    IndentAt(anc, k);
    assert line[k] == P[k];
  }

  // ---------------------------------------------------------------------------
  // From lines to readings.

  /** Every visit is below the root and carries a plain name. */
  predicate Printable(vs: seq<Visit>) {
    forall i :: 0 <= i < |vs| ==> |vs[i].lasts| >= 1 && PlainName(vs[i].node.name)
  }

  /** The positions of the visits a reader keeps, in increasing order. */
  function KeptIndices(lead: Lead, vs: seq<Visit>): (ks: seq<nat>)
    ensures forall k :: 0 <= k < |ks| ==> ks[k] < |vs| && Kept(lead, vs[ks[k]])
    ensures forall k, l :: 0 <= k < l < |ks| ==> ks[k] < ks[l]
    ensures forall i :: 0 <= i < |vs| && Kept(lead, vs[i]) ==> i in ks
  {
    if vs == [] then []
    else
      var init := vs[..|vs| - 1];
      var ks := KeptIndices(lead, init);
      assert forall i :: 0 <= i < |init| ==> init[i] == vs[i];
      if Kept(lead, vs[|vs| - 1]) then ks + [|vs| - 1] else ks
  }

  lemma RefLinesSnoc(c: Config, vs: seq<Visit>)
    requires vs != []
    ensures var ls := RefLines(c, vs);
      ls[..|ls| - 1] == RefLines(c, vs[..|vs| - 1]) && ls[|ls| - 1] == RefLine(c, vs[|vs| - 1])
  {
    var init := vs[..|vs| - 1];
    assert vs == init + [vs[|vs| - 1]];
    RefLinesAppend(c, init, [vs[|vs| - 1]]);
  }

  /** The readings a reader should get from the visits' lines. */
  function Expected(lead: Lead, c: Config, vs: seq<Visit>): seq<Reading>
    requires Printable(vs)
  {
    if vs == [] then []
    else
      var v := vs[|vs| - 1];
      Expected(lead, c, vs[..|vs| - 1]) + if Kept(lead, v) then [ReadingOf(c, v)] else []
  }

  lemma LineContribution(lead: Lead, c: Config, v: Visit)
    requires |v.lasts| >= 1 && PlainName(v.node.name)
    ensures Contribution(lead, RefLine(c, v)) == if Kept(lead, v) then [ReadingOf(c, v)] else []
  {
    if Kept(lead, v) {
      KeptLineAccepted(lead, c, v);
      AcceptedContribution(lead, RefLine(c, v), ReadingOf(c, v).content);
    } else {
      DroppedLineSkipped(c, v);
      RejectedContribution(lead, RefLine(c, v));
    }
  }

  /** A reader gets exactly the expected readings from the writer's lines. */
  lemma {:induction false} ReadingsOfRefLines(lead: Lead, c: Config, vs: seq<Visit>)
    requires Printable(vs)
    ensures Readings(lead, RefLines(c, vs)) == Expected(lead, c, vs)
  {
    if vs != [] {
      var init, v := vs[..|vs| - 1], vs[|vs| - 1];
      ReadingsOfRefLines(lead, c, init);
      RefLinesSnoc(c, vs);
      LineContribution(lead, c, v);
    }
  }

  /** The expected readings are those of the kept visits, in order. */
  lemma {:induction false} ExpectedAreKept(lead: Lead, c: Config, vs: seq<Visit>)
    requires Printable(vs)
    ensures var rs, ks := Expected(lead, c, vs), KeptIndices(lead, vs);
      |rs| == |ks| && forall k :: 0 <= k < |ks| ==> rs[k] == ReadingOf(c, vs[ks[k]])
  {
    if vs != [] {
      var init, v := vs[..|vs| - 1], vs[|vs| - 1];
      assert forall i :: 0 <= i < |init| ==> init[i] == vs[i];
      ExpectedAreKept(lead, c, init);
      var rs0, ks0 := Expected(lead, c, init), KeptIndices(lead, init);
      var rs, ks := Expected(lead, c, vs), KeptIndices(lead, vs);
      if Kept(lead, v) {
        assert rs == rs0 + [ReadingOf(c, v)] && ks == ks0 + [|vs| - 1];
      } else {
        assert rs == rs0 && ks == ks0;
      }
      forall k | 0 <= k < |ks|
        ensures rs[k] == ReadingOf(c, vs[ks[k]])
      {
        if k < |ks0| {
          assert rs[k] == rs0[k] && ks[k] == ks0[k];
        }
      }
    }
  }

  // ---------------------------------------------------------------------------
  // Where each visit's parent sits in the pre-order.

  /** Visit `q` is the parent of visit `i`: an earlier directory whose flags
      are `i`'s ancestors', with every visit between them at least as deep
      as `i`. */
  predicate ParentVisit(vs: seq<Visit>, i: int, q: int) {
    0 <= q < i < |vs| && vs[q].node.Dir? && vs[q].lasts == Ancestors(vs[i].lasts)
    && forall k :: q < k < i ==> |vs[k].lasts| >= |vs[i].lasts|
  }

  /** Visit `i` of the pre-order of children on `path`, below the visit at
      `parent`, numbered from `base`: it lies under `path`, and its parent is
      `parent` if it is one of those children and an earlier visit of the run
      otherwise. */
  predicate Shaped(vs: seq<Visit>, path: seq<bool>, parent: int, base: int, i: int)
    requires 0 <= i < |vs|
  {
    var v := vs[i];
    |v.lasts| > |path| && v.lasts[..|path|] == path
    && if |v.lasts| == |path| + 1 then v.parent == parent
       else ParentVisit(vs, i, v.parent - base)
  }

  /** Every visit of the run has the shape above. */
  predicate RunShaped(vs: seq<Visit>, path: seq<bool>, parent: int, base: int) {
    forall i :: 0 <= i < |vs| ==> Shaped(vs, path, parent, base, i)
  }

  /** A parent relation inside a run stays one after visits are put before
      and after the run. */
  lemma ShiftParentVisit(vs: seq<Visit>, off: nat, ws: seq<Visit>, t: int, q: int)
    requires off + |ws| <= |vs| && ws == vs[off..off + |ws|]
    requires ParentVisit(ws, t, q)
    ensures ParentVisit(vs, off + t, off + q)
  {
    assert forall k :: off + q < k < off + t ==> vs[k] == ws[k - off];
  }

  /** A visit of the head's descendants, seen in the whole run. */
  lemma ShapedInBelow(vs: seq<Visit>, V: Visit, B: seq<Visit>, R: seq<Visit>, path: seq<bool>, parent: int, base: int, t: int)
    requires vs == [V] + B + R && 0 <= t < |B|
    requires V.node.Dir? && |V.lasts| == |path| + 1 && V.lasts[..|path|] == path
    requires RunShaped(B, V.lasts, base, base + 1)
    ensures Shaped(vs, path, parent, base, 1 + t)
  {
    var w := B[t];
    assert vs[1 + t] == w;
    assert Shaped(B, V.lasts, base, base + 1, t);
    assert w.lasts[..|path|] == V.lasts[..|path|];
    assert B == vs[1..1 + |B|];
    if |w.lasts| == |V.lasts| + 1 {
      assert Ancestors(w.lasts) == w.lasts[..|V.lasts|];
      forall k | 0 < k < 1 + t
        ensures |vs[k].lasts| >= |w.lasts|
      {
        assert vs[k] == B[k - 1];
        assert Shaped(B, V.lasts, base, base + 1, k - 1);
      }
      assert ParentVisit(vs, 1 + t, 0);
    } else {
      ShiftParentVisit(vs, 1, B, t, w.parent - base - 1);
    }
  }

  /** A visit of the later siblings' run, seen in the whole run. */
  lemma ShapedInRest(vs: seq<Visit>, V: Visit, B: seq<Visit>, R: seq<Visit>, path: seq<bool>, parent: int, base: int, t: int)
    requires vs == [V] + B + R && 0 <= t < |R|
    requires RunShaped(R, path, parent, base + 1 + |B|)
    ensures Shaped(vs, path, parent, base, 1 + |B| + t)
  {
    var w := R[t];
    assert vs[1 + |B| + t] == w;
    assert Shaped(R, path, parent, base + 1 + |B|, t);
    if |w.lasts| != |path| + 1 {
      assert R == vs[1 + |B|..1 + |B| + |R|];
      ShiftParentVisit(vs, 1 + |B|, R, t, w.parent - base - 1 - |B|);
    }
  }

  /** Every visit of a pre-order run has the shape above. */
  lemma {:induction false} PreorderShaped(cs: seq<Node>, path: seq<bool>, parent: int, base: int)
    ensures RunShaped(Preorder(cs, path, parent, base), path, parent, base)
    decreases cs, 1
  {
    if cs != [] {
      var flags := path + [|cs| == 1];
      var V := Visit(cs[0], flags, parent);
      var B := Below(cs[0], flags, base);
      var R := Preorder(cs[1..], path, parent, base + 1 + |B|);
      var vs := Preorder(cs, path, parent, base);
      PreorderCons(cs, path, parent, base);
      assert flags[..|path|] == path;
      BelowShaped(cs[0], flags, base);
      PreorderShaped(cs[1..], path, parent, base + 1 + |B|);
      ShapedJoin(vs, V, B, R, path, parent, base);
    }
  }

  /** A run is shaped when its head visit is a child on `path`, and the
      head's descendants and the rest are shaped. */
  lemma ShapedJoin(vs: seq<Visit>, V: Visit, B: seq<Visit>, R: seq<Visit>, path: seq<bool>, parent: int, base: int)
    requires vs == [V] + B + R
    requires |V.lasts| == |path| + 1 && V.lasts[..|path|] == path && V.parent == parent
    requires (B != [] ==> V.node.Dir?) && RunShaped(B, V.lasts, base, base + 1)
    requires RunShaped(R, path, parent, base + 1 + |B|)
    ensures RunShaped(vs, path, parent, base)
  {
    forall i | 0 <= i < |vs|
      ensures Shaped(vs, path, parent, base, i)
    {
      if i == 0 {
        assert vs[0] == V;
      } else if i <= |B| {
        ShapedInBelow(vs, V, B, R, path, parent, base, i - 1);
      } else {
        ShapedInRest(vs, V, B, R, path, parent, base, i - 1 - |B|);
      }
    }
  }

  lemma {:induction false} BelowShaped(n: Node, flags: seq<bool>, base: int)
    ensures var vs := Below(n, flags, base);
      (vs != [] ==> n.Dir?) && RunShaped(vs, flags, base, base + 1)
    decreases n, 0
  {
    match n
    case File(_, _) =>
    case Dir(_, gs) => PreorderShaped(gs, flags, base, base + 1);
  }

  // ---------------------------------------------------------------------------
  // The parents the reader assigns.

  /** Item `k` stands for visit `ks[k]`: same kind, and a level one less
      than the visit's depth. The positions increase. */
  predicate Mirrors(items: seq<Item>, vs: seq<Visit>, ks: seq<nat>) {
    |items| == |ks|
    && (forall k :: 0 <= k < |ks| ==> ks[k] < |vs|)
    && (forall k, l :: 0 <= k < l < |ks| ==> ks[k] < ks[l])
    && forall k :: 0 <= k < |ks| ==>
         items[k].isDir == vs[ks[k]].node.Dir? && items[k].level + 1 == |vs[ks[k]].lasts|
  }

  /** A reader keeps the parent of every visit it keeps. */
  lemma KeptParent(lead: Lead, vs: seq<Visit>, i: int, q: int)
    requires ParentVisit(vs, i, q) && Kept(lead, vs[i])
    ensures Kept(lead, vs[q])
  {
    if lead == Whitespace {
      var l := vs[q].lasts;
      assert AllLast(l);
      assert forall j :: 0 <= j < |Ancestors(l)| ==> Ancestors(l)[j] == l[j];
    }
  }

  /** An item standing for a visit at the top stands below the root. */
  lemma TopIsParent(items: seq<Item>, k: int)
    requires 0 <= k < |items| && items[k].level == 0
    ensures IsParent(items, k, -1)
  {
  }

  /** An item standing for a visit whose parent visit is kept as item `kq`
      has `kq` as its parent. */
  lemma KeptIsParent(items: seq<Item>, vs: seq<Visit>, ks: seq<nat>, k: int, kq: int)
    requires Mirrors(items, vs, ks) && 0 <= k < |ks| && 0 <= kq < |ks|
    requires ParentVisit(vs, ks[k], ks[kq])
    ensures IsParent(items, k, kq)
  {
    var i, q := ks[k], ks[kq];
    assert |vs[q].lasts| + 1 == |vs[i].lasts|;
    forall m | kq < m < k
      ensures items[m].level >= items[k].level
    {
      assert q < ks[m] < i;
    }
  }

  /** The parent the reader gives item `k`, taken back through `ks`, is the
      parent of the visit it stands for. */
  lemma ParentOfKept(lead: Lead, items: seq<Item>, vs: seq<Visit>, ks: seq<nat>, k: int)
    requires Mirrors(items, vs, ks) && ParentsOk(items) && RunShaped(vs, [], -1, 0)
    requires forall k :: 0 <= k < |ks| ==> Kept(lead, vs[ks[k]])
    requires forall i :: 0 <= i < |vs| && Kept(lead, vs[i]) ==> i in ks
    requires 0 <= k < |ks|
    ensures -1 <= items[k].parent < k
    ensures (if items[k].parent == -1 then -1 else ks[items[k].parent]) == vs[ks[k]].parent
  {
    var i := ks[k];
    assert IsParent(items, k, items[k].parent);
    assert Shaped(vs, [], -1, 0, i);
    if |vs[i].lasts| == 1 {
      TopIsParent(items, k);
      ParentUnique(items, k, -1, items[k].parent);
    } else {
      var q := vs[i].parent;
      KeptParent(lead, vs, i, q);
      assert q in ks;
      var kq :| 0 <= kq < |ks| && ks[kq] == q;
      KeptIsParent(items, vs, ks, k, kq);
      ParentUnique(items, k, kq, items[k].parent);
    }
  }

  // ---------------------------------------------------------------------------
  // The round trip.

  /** Every name in the tree is plain. */
  predicate PlainTree(n: Node) {
    PlainName(n.name) && forall i :: 0 <= i < |Children(n)| ==> PlainTree(Children(n)[i])
  }

  predicate PlainForest(cs: seq<Node>) {
    forall i :: 0 <= i < |cs| ==> PlainTree(cs[i])
  }

  predicate PlainVisits(vs: seq<Visit>) {
    forall i :: 0 <= i < |vs| ==> PlainTree(vs[i].node)
  }

  lemma {:induction false} PreorderPlain(cs: seq<Node>, path: seq<bool>, parent: int, base: int)
    requires PlainForest(cs)
    ensures PlainVisits(Preorder(cs, path, parent, base))
    decreases cs, 1
  {
    if cs != [] {
      var flags := path + [|cs| == 1];
      var B := Below(cs[0], flags, base);
      var next := base + 1 + |B|;
      PlainForestTail(cs);
      BelowPlain(cs[0], flags, base);
      PreorderPlain(cs[1..], path, parent, next);
      PlainForestStep(cs, path, parent, base);
    }
  }

  lemma PlainForestStep(cs: seq<Node>, path: seq<bool>, parent: int, base: int)
    requires cs != []
    requires PlainTree(cs[0]) && PlainVisits(Below(cs[0], path + [|cs| == 1], base))
    requires PlainVisits(Preorder(cs[1..], path, parent, base + 1 + |Below(cs[0], path + [|cs| == 1], base)|))
    ensures PlainVisits(Preorder(cs, path, parent, base))
  {
    PreorderCons(cs, path, parent, base);
    PlainVisitsJoin(Preorder(cs, path, parent, base), Visit(cs[0], path + [|cs| == 1], parent),
      Below(cs[0], path + [|cs| == 1], base),
      Preorder(cs[1..], path, parent, base + 1 + |Below(cs[0], path + [|cs| == 1], base)|));
  }

  lemma PlainForestTail(cs: seq<Node>)
    requires cs != [] && PlainForest(cs)
    ensures PlainTree(cs[0]) && PlainForest(cs[1..])
  {
    assert forall i :: 0 <= i < |cs| - 1 ==> cs[1..][i] == cs[i + 1];
  }

  lemma PlainVisitsJoin(vs: seq<Visit>, v: Visit, B: seq<Visit>, R: seq<Visit>)
    requires vs == [v] + B + R
    requires PlainTree(v.node) && PlainVisits(B) && PlainVisits(R)
    ensures PlainVisits(vs)
  {
    forall i | 0 <= i < |vs|
      ensures PlainTree(vs[i].node)
    {
      if i == 0 {
      } else if i < 1 + |B| {
        assert vs[i] == B[i - 1];
      } else {
        assert vs[i] == R[i - 1 - |B|];
      }
    }
  }

  lemma {:induction false} BelowPlain(n: Node, flags: seq<bool>, base: int)
    requires PlainTree(n)
    ensures PlainVisits(Below(n, flags, base))
    decreases n, 0
  {
    match n
    case File(_, _) =>
    case Dir(_, gs) =>
      assert Children(n) == gs;
      PreorderPlain(gs, flags, base, base + 1);
  }

  /** The visits of a plain forest below the root can all be printed. */
  lemma TopPrintable(cs: seq<Node>)
    requires PlainForest(cs)
    ensures Printable(Preorder(cs, [], -1, 0)) && RunShaped(Preorder(cs, [], -1, 0), [], -1, 0)
  {
    var vs := Preorder(cs, [], -1, 0);
    PreorderPlain(cs, [], -1, 0);
    PreorderShaped(cs, [], -1, 0);
    forall i | 0 <= i < |vs|
      ensures |vs[i].lasts| >= 1 && PlainName(vs[i].node.name)
    {
      assert Shaped(vs, [], -1, 0, i);
      assert PlainTree(vs[i].node);
    }
  }

  lemma RootLineFacts(title: string, n: Node)
    requires PlainName(title) && n.Dir?
    ensures var s, e := RootLine(title, n), 2 + |title|;
      |s| == e + 1 && s[0] == DirMarker && s[1] == ' ' && s[2..e] == title && s[e..] == "/"
  {
  }

  lemma RootLineStripped(title: string, n: Node)
    requires n.Dir?
    ensures Strip(RootLine(title, n)) == RootLine(title, n)
  {
    var s := RootLine(title, n);
    assert s[0] == DirMarker && s[|s| - 1] == '/';
    assert !IsSpace(s[0]) && !IsSpace(s[|s| - 1]);
  }

  lemma RootNameSpan(title: string, n: Node)
    requires PlainName(title) && n.Dir?
    ensures SpacedName(RootTail, RootLine(title, n), 1) == Some((2 as nat, (2 + |title|) as nat))
  {
    var s := RootLine(title, n);
    var e: nat := 2 + |title|;
    RootLineFacts(title, n);
    assert s[1..][..1] == " " && s[1..][1] == title[0];
    LeadingSpacesExact(s[1..], 1);
    forall j | 3 <= j < e
      ensures !TailMatches(RootTail, s[j..])
    {
      assert |s[j..]| >= 2;
    }
    LazyEndExact(RootTail, s, 3, e);
  }

  /** The root line of a directory with a plain name reads back as that name. */
  lemma RootLineParses(title: string, n: Node)
    requires PlainName(title) && n.Dir?
    ensures ParseRoot(RootLine(title, n)) == Some(title)
  {
    RootLineFacts(title, n);
    RootLineStripped(title, n);
    RootNameSpan(title, n);
  }

  /** The parsed items, one per kept visit: item `k` has the name, kind, size
      text and depth of visit `ks[k]`, and its parent, taken back through
      `ks`, is that visit's parent. */
  predicate Recovers(c: Config, items: seq<Item>, vs: seq<Visit>, ks: seq<nat>)
    requires forall k :: 0 <= k < |ks| ==> ks[k] < |vs|
  {
    |items| == |ks|
    && forall k :: 0 <= k < |ks| ==>
         var x, v := items[k], vs[ks[k]];
         x.name == v.node.name && x.isDir == v.node.Dir? && x.size == SizeText(c, v.node)
         && x.level + 1 == |v.lasts| && -1 <= x.parent < k
         && (if x.parent == -1 then -1 else ks[x.parent]) == v.parent
  }

  /** The items a reader builds from printable visits' lines stand for the
      kept visits. */
  lemma RunMirrors(lead: Lead, c: Config, vs: seq<Visit>)
    requires Printable(vs)
    ensures var items, ks := Run(lead, RefLines(c, vs)).items, KeptIndices(lead, vs);
      Mirrors(items, vs, ks)
      && forall k :: 0 <= k < |ks| ==>
           items[k].name == vs[ks[k]].node.name && items[k].size == SizeText(c, vs[ks[k]].node)
  {
    var ks := KeptIndices(lead, vs);
    var items := Run(lead, RefLines(c, vs)).items;
    ItemsAreReadings(lead, RefLines(c, vs));
    ReadingsOfRefLines(lead, c, vs);
    ExpectedAreKept(lead, c, vs);
    assert ItemReadings(items) == Expected(lead, c, vs);
    forall k | 0 <= k < |ks|
      ensures var x, v := items[k], vs[ks[k]];
        x.name == v.node.name && x.isDir == v.node.Dir? && x.size == SizeText(c, v.node)
        && x.level + 1 == |v.lasts|
    {
      assert ItemReading(items[k]) == ReadingOf(c, vs[ks[k]]);
    }
  }

  /** Items standing for the kept visits of a well-shaped run, with the
      parents the reader's rule gives, recover the run. */
  lemma MirrorsRecover(lead: Lead, c: Config, items: seq<Item>, vs: seq<Visit>)
    requires RunShaped(vs, [], -1, 0) && ParentsOk(items)
    requires var ks := KeptIndices(lead, vs);
      Mirrors(items, vs, ks)
      && forall k :: 0 <= k < |ks| ==>
           items[k].name == vs[ks[k]].node.name && items[k].size == SizeText(c, vs[ks[k]].node)
    ensures Recovers(c, items, vs, KeptIndices(lead, vs))
  {
    var ks := KeptIndices(lead, vs);
    forall k | 0 <= k < |ks|
      ensures -1 <= items[k].parent < k
      ensures (if items[k].parent == -1 then -1 else ks[items[k].parent]) == vs[ks[k]].parent
    {
      ParentOfKept(lead, items, vs, ks, k);
    }
  }

  /** What a reader makes of the pre-order lines of a plain forest. */
  lemma LinesRecovered(lead: Lead, c: Config, cs: seq<Node>)
    requires PlainForest(cs)
    ensures var vs := Preorder(cs, [], -1, 0);
      Recovers(c, Run(lead, RefLines(c, vs)).items, vs, KeptIndices(lead, vs))
  {
    var vs := Preorder(cs, [], -1, 0);
    TopPrintable(cs);
    RunMirrors(lead, c, vs);
    MirrorsRecover(lead, c, Run(lead, RefLines(c, vs)).items, vs);
  }

  /** Reading back a printed tree's fenced block: the reader names the
      title as the root and gives one item per kept visit, with its name,
      kind, size text, depth and parent. */
  lemma BlockRecovered(lead: Lead, c: Config, title: string, n: Node)
    requires n.Dir? && PlainName(title) && PlainForest(Children(n)) && NoneNamed(Children(n), n.name)
    ensures var r := ParseWith(lead, TreeBlock(c, title, n)); var vs := Preorder(Children(n), [], -1, 0);
      r.Some? && r.value.rootName == title && Recovers(c, r.value.items, vs, KeptIndices(lead, vs))
  {
    var vs := Preorder(Children(n), [], -1, 0);
    BlockParse(lead, c, title, n);
    LinesRecovered(lead, c, Children(n));
  }

  /** The fenced block parses as the root's name and the items of the tree
      lines. */
  lemma BlockParse(lead: Lead, c: Config, title: string, n: Node)
    requires n.Dir? && PlainName(title) && NoneNamed(Children(n), n.name)
    ensures ParseWith(lead, TreeBlock(c, title, n))
         == Some(ParsedTree(title, Run(lead, RefLines(c, Preorder(Children(n), [], -1, 0))).items))
  {
    var lines := TreeBlock(c, title, n);
    TreeBlockShape(c, title, n);
    assert lines[0] == RootLine(title, n);
    assert lines[1..] == RefLines(c, Preorder(Children(n), [], -1, 0));
    RootLineParses(title, n);
  }

  /** When a reader keeps every visit, the positions it keeps are all of them. */
  lemma {:induction false} AllKept(lead: Lead, vs: seq<Visit>)
    requires forall i :: 0 <= i < |vs| ==> Kept(lead, vs[i])
    ensures var ks := KeptIndices(lead, vs); |ks| == |vs| && forall k :: 0 <= k < |ks| ==> ks[k] == k
  {
    if vs != [] {
      var init := vs[..|vs| - 1];
      assert forall i :: 0 <= i < |init| ==> init[i] == vs[i];
      AllKept(lead, init);
    }
  }

  /** The items are the visits, one for one: the same name, kind, size text,
      depth and parent position. */
  predicate Faithful(c: Config, items: seq<Item>, vs: seq<Visit>)
    requires Printable(vs)
  {
    |items| == |vs|
    && forall k :: 0 <= k < |vs| ==>
         items[k] == Item(vs[k].node.name, vs[k].node.Dir?, SizeText(c, vs[k].node), |vs[k].lasts| - 1, vs[k].parent)
  }

  lemma RecoversAll(lead: Lead, c: Config, items: seq<Item>, vs: seq<Visit>)
    requires Printable(vs) && forall i :: 0 <= i < |vs| ==> Kept(lead, vs[i])
    requires Recovers(c, items, vs, KeptIndices(lead, vs))
    ensures Faithful(c, items, vs)
  {
    AllKept(lead, vs);
  }

  /** The reader that counts bars as indentation gives back every node of a
      printed tree, in pre-order, each under its own parent. */
  lemma BarAwareRoundTrip(c: Config, title: string, n: Node)
    requires n.Dir? && PlainName(title) && PlainForest(Children(n)) && NoneNamed(Children(n), n.name)
    ensures var r := ParseTreeLinesBarAware(TreeBlock(c, title, n)); var vs := Preorder(Children(n), [], -1, 0);
      Printable(vs) && r.Some? && r.value.rootName == title && Faithful(c, r.value.items, vs)
  {
    var vs := Preorder(Children(n), [], -1, 0);
    TopPrintable(Children(n));
    BlockRecovered(WhitespaceAndBars, c, title, n);
    RecoversAll(WhitespaceAndBars, c, ParseWith(WhitespaceAndBars, TreeBlock(c, title, n)).value.items, vs);
  }

  /** The positions kept are exactly those of the kept visits. */
  lemma KeptIndicesExact(lead: Lead, vs: seq<Visit>)
    ensures forall i :: 0 <= i < |vs| ==> (i in KeptIndices(lead, vs) <==> Kept(lead, vs[i]))
  {
  }

  /** The reader as written gives back exactly the nodes whose ancestors
      below the root are all last siblings, each under its own parent; when
      every node is of that kind, it gives back the whole tree. */
  lemma AsWrittenReadBack(c: Config, title: string, n: Node)
    requires n.Dir? && PlainName(title) && PlainForest(Children(n)) && NoneNamed(Children(n), n.name)
    ensures var r := ParseTreeLines(TreeBlock(c, title, n)); var vs := Preorder(Children(n), [], -1, 0);
      var ks := KeptIndices(Whitespace, vs);
      Printable(vs) && r.Some? && r.value.rootName == title && Recovers(c, r.value.items, vs, ks)
      && (forall i :: 0 <= i < |vs| ==> (i in ks <==> Survives(vs[i])))
      && ((forall i :: 0 <= i < |vs| ==> Survives(vs[i])) ==> Faithful(c, r.value.items, vs))
  {
    var vs := Preorder(Children(n), [], -1, 0);
    TopPrintable(Children(n));
    BlockRecovered(Whitespace, c, title, n);
    KeptAreSurvivors(vs);
    SurvivorsRecovered(c, ParseWith(Whitespace, TreeBlock(c, title, n)).value.items, vs);
  }

  /** Under the reader as written, the kept visits are the survivors. */
  lemma KeptAreSurvivors(vs: seq<Visit>)
    ensures forall i :: 0 <= i < |vs| ==> (i in KeptIndices(Whitespace, vs) <==> Survives(vs[i]))
  {
    KeptIndicesExact(Whitespace, vs);
  }

  /** When every visit survives, recovering the kept ones is recovering all. */
  lemma SurvivorsRecovered(c: Config, items: seq<Item>, vs: seq<Visit>)
    requires Printable(vs) && Recovers(c, items, vs, KeptIndices(Whitespace, vs))
    ensures (forall i :: 0 <= i < |vs| ==> Survives(vs[i])) ==> Faithful(c, items, vs)
  {
    if forall i :: 0 <= i < |vs| ==> Survives(vs[i]) {
      RecoversAll(Whitespace, c, items, vs);
    }
  }

  // ---------------------------------------------------------------------------
  // The smallest tree the reader as written gets wrong: a root `r` holding a
  // directory `a`, which holds a file `x`, and then a file `b`.

  function Sample(r: string, a: string, x: string, b: string, xSize: nat, bSize: nat): Node {
    Dir(r, [Dir(a, [File(x, xSize)]), File(b, bSize)])
  }

  predicate SampleNames(title: string, r: string, a: string, x: string, b: string) {
    PlainName(title) && PlainName(a) && PlainName(x) && PlainName(b) && r != a && r != x && r != b
  }

  lemma PreorderOfFile(f: Node, path: seq<bool>, parent: int, base: int)
    requires f.File?
    ensures Preorder([f], path, parent, base) == [Visit(f, path + [true], parent)]
  {
    assert [f][1..] == [];
  }

  lemma PreorderOfPair(d: Node, f: Node, path: seq<bool>, parent: int, base: int)
    ensures var B := Below(d, path + [false], base);
      Preorder([d, f], path, parent, base)
      == [Visit(d, path + [false], parent)] + B + Preorder([f], path, parent, base + 1 + |B|)
  {
    assert [d, f][1..] == [f];
  }

  lemma SampleVisits(r: string, a: string, x: string, b: string, xSize: nat, bSize: nat)
    ensures var vs := Preorder(Children(Sample(r, a, x, b, xSize, bSize)), [], -1, 0);
      vs == [Visit(Dir(a, [File(x, xSize)]), [false], -1), Visit(File(x, xSize), [false, true], 0),
             Visit(File(b, bSize), [true], -1)]
  {
    var da, fx, fb := Dir(a, [File(x, xSize)]), File(x, xSize), File(b, bSize);
    PreorderOfPair(da, fb, [], -1, 0);
    PreorderOfFile(fx, [false], 0, 1);
    assert [] + [false] == [false] && [false] + [true] == [false, true] && [] + [true] == [true];
    assert Below(da, [false], 0) == [Visit(fx, [false, true], 0)];
    PreorderOfFile(fb, [], -1, 2);
  }

  lemma SampleReadable(title: string, r: string, a: string, x: string, b: string, xSize: nat, bSize: nat)
    requires SampleNames(title, r, a, x, b)
    ensures var n := Sample(r, a, x, b, xSize, bSize);
      PlainForest(Children(n)) && NoneNamed(Children(n), n.name)
  {
    var n := Sample(r, a, x, b, xSize, bSize);
    assert Children(Children(n)[0]) == [File(x, xSize)];
  }

  /** The writer prints `x` behind a bar. */
  lemma SampleLines(c: Config, title: string, r: string, a: string, x: string, b: string, xSize: nat, bSize: nat)
    requires SampleNames(title, r, a, x, b)
    ensures var n := Sample(r, a, x, b, xSize, bSize); var block := TreeBlock(c, title, n);
      |block| == 4
      && block[2] == Indent(false) + Connector(true) + [FileMarker] + " " + x + SizeSuffix(c, File(x, xSize))
      && block[2][0] == Bar
  {
    var n := Sample(r, a, x, b, xSize, bSize);
    var vs := Preorder(Children(n), [], -1, 0);
    SampleVisits(r, a, x, b, xSize, bSize);
    SampleReadable(title, r, a, x, b, xSize, bSize);
    TreeBlockShape(c, title, n);
    RefLinesAt(c, vs);
    NestedLastFileLine(c, vs[1], x, xSize);
  }

  /** The line of a file that is the last child of a first-level directory
      which is not last: a bar, blanks, the elbow, the marker and the name. */
  lemma NestedLastFileLine(c: Config, v: Visit, x: string, xSize: nat)
    requires v.node == File(x, xSize) && v.lasts == [false, true]
    ensures RefLine(c, v) == Indent(false) + Connector(true) + [FileMarker] + " " + x + SizeSuffix(c, File(x, xSize))
  {
    assert Ancestors(v.lasts) == [false];
    assert IndentOf([false]) == IndentOf([]) + Indent(false) == Indent(false);
  }

  /** The reader as written drops the line of `x` and returns two items for
      the three nodes below the root. */
  lemma AsWrittenDropsNestedFile(c: Config, title: string, r: string, a: string, x: string, b: string, xSize: nat, bSize: nat)
    requires SampleNames(title, r, a, x, b)
    ensures var n := Sample(r, a, x, b, xSize, bSize);
      var res := ParseTreeLines(TreeBlock(c, title, n));
      |Preorder(Children(n), [], -1, 0)| == 3
      && res.Some? && |res.value.items| == 2 && res.value.items[0].name == a && res.value.items[1].name == b
  {
    var n := Sample(r, a, x, b, xSize, bSize);
    var vs := Preorder(Children(n), [], -1, 0);
    SampleVisits(r, a, x, b, xSize, bSize);
    SampleReadable(title, r, a, x, b, xSize, bSize);
    AsWrittenReadBack(c, title, n);
    SampleSurvivors(r, a, x, b, xSize, bSize);
    KeptFirstAndLast(Whitespace, vs);
  }

  /** Only `x` sits below an ancestor that is not a last sibling. */
  lemma SampleSurvivors(r: string, a: string, x: string, b: string, xSize: nat, bSize: nat)
    ensures var vs := Preorder(Children(Sample(r, a, x, b, xSize, bSize)), [], -1, 0);
      |vs| == 3 && Survives(vs[0]) && !Survives(vs[1]) && Survives(vs[2])
  {
    SampleVisits(r, a, x, b, xSize, bSize);
    assert Ancestors([false, true]) == [false] && ![false][0];
    assert Ancestors([false]) == [] && Ancestors([true]) == [];
  }

  lemma KeptFirstAndLast(lead: Lead, vs: seq<Visit>)
    requires |vs| == 3 && Kept(lead, vs[0]) && !Kept(lead, vs[1]) && Kept(lead, vs[2])
    ensures KeptIndices(lead, vs) == [0, 2]
  {
    assert vs[..2][..1] == vs[..1] && vs[..1][..0] == [];
    assert KeptIndices(lead, vs[..1]) == [0];
    assert KeptIndices(lead, vs[..2]) == [0];
  }

  /** The reader that counts bars returns all three nodes, `x` under `a`. */
  lemma BarAwareKeepsNestedFile(c: Config, title: string, r: string, a: string, x: string, b: string, xSize: nat, bSize: nat)
    requires SampleNames(title, r, a, x, b)
    ensures var n := Sample(r, a, x, b, xSize, bSize);
      var res := ParseTreeLinesBarAware(TreeBlock(c, title, n));
      res.Some? && |res.value.items| == 3
      && res.value.items[1].name == x && res.value.items[1].parent == 0
  {
    var n := Sample(r, a, x, b, xSize, bSize);
    var vs := Preorder(Children(n), [], -1, 0);
    SampleVisits(r, a, x, b, xSize, bSize);
    SampleReadable(title, r, a, x, b, xSize, bSize);
    BarAwareRoundTrip(c, title, n);
    FaithfulAt(c, ParseTreeLinesBarAware(TreeBlock(c, title, n)).value.items, vs, 1);
  }

  /** What a faithful reading says of one item. */
  lemma FaithfulAt(c: Config, items: seq<Item>, vs: seq<Visit>, k: int)
    requires Printable(vs) && Faithful(c, items, vs) && 0 <= k < |vs|
    ensures |items| == |vs| && items[k].name == vs[k].node.name && items[k].parent == vs[k].parent
  {
  }
}
