/** The writer: `MarkdownGenerator.tree_to_lines` and `generate_markdown`. A
    document is modelled as its list of lines; the text is each line followed
    by a newline. */
module Render {
  import opened Text
  import opened Glyphs
  import opened DirTree
  import opened SizeFormat

  /** The size shown after a file's name when sizes are on. */
  function SizeSuffix(c: Config, n: Node): string {
    if c.includeSize && n.File? then " (" + FormatSize(n.size) + ")" else ""
  }

  /** The line for one node below the root. */
  function NodeLine(c: Config, n: Node, prefix: string, isLast: bool): string {
    prefix + Connector(isLast) + [Marker(n.Dir?)] + " " + n.name + SizeSuffix(c, n)
  }

  /** `tree_to_lines(node, prefix, is_last)`. `rootName` is the root path's
      name: a node carrying it prints no line of its own and hands its prefix
      to its children unchanged. */
  function TreeLines(c: Config, rootName: string, n: Node, prefix: string, isLast: bool): (ls: seq<string>)
    ensures AllUnder(ls, prefix)
    ensures |ls| <= Tally(n).dirs + Tally(n).files
  {
    var own := if n.name != rootName then [NodeLine(c, n, prefix, isLast)] else [];
    match n
    case File(_, _) => own
    case Dir(_, cs) =>
      own + ChildLines(c, rootName, cs, if n.name == rootName then prefix else prefix + Indent(isLast))
  }

  /** The loop over a node's children; only the final child is last. */
  function ChildLines(c: Config, rootName: string, cs: seq<Node>, prefix: string): (ls: seq<string>)
    ensures AllUnder(ls, prefix)
    ensures |ls| <= TallyAll(cs).dirs + TallyAll(cs).files
  {
    if cs == [] then []
    else TreeLines(c, rootName, cs[0], prefix, |cs| == 1) + ChildLines(c, rootName, cs[1..], prefix)
  }

  /** Every line starts with `prefix`: a subtree is drawn inside its
      ancestors' columns. */
  predicate AllUnder(ls: seq<string>, prefix: string) {
    forall i :: 0 <= i < |ls| ==> prefix <= ls[i]
  }

  // ---------------------------------------------------------------------------
  // The document.

  const Fence := "```"

  /** The text printed when there is no tree. */
  const Placeholder: seq<string> := ["# 目录结构", "", "目录为空或无法访问。"]

  /** The line naming the root at the top of the fenced block. */
  function RootLine(title: string, root: Node): string {
    [Marker(root.Dir?)] + " " + title + "/"
  }

  /** The title and the opening fence. */
  function Header(title: string): (h: seq<string>)
    ensures |h| == 3
  {
    ["# 目录结构: " + title, "", Fence]
  }

  /** The lines inside the fence: the root line, then the lines of the
      root's children, with no prefix of their own. */
  function TreeBlock(c: Config, title: string, root: Node): seq<string> {
    [RootLine(title, root)] + ChildLines(c, root.name, Children(root), "")
  }

  /** The statistics line for the directory count. */
  function DirsLine(dirs: nat): string {
    "- **目录数**: " + NatText(dirs)
  }

  /** The statistics line for the file count. */
  function FilesLine(files: nat): string {
    "- **文件数**: " + NatText(files)
  }

  /** The closing fence and the statistics; the file count and the total
      size are left out when only directories are listed. */
  function Footer(c: Config, stats: Stats): (f: seq<string>)
    ensures |f| >= 5 && f[0] == Fence && f[4] == DirsLine(stats.dirs)
    ensures !c.onlyDirs ==> |f| >= 6 && f[5] == FilesLine(stats.files)
  {
    [Fence, "", "## 统计信息", "", DirsLine(stats.dirs)]
    + (if c.onlyDirs then []
       else [FilesLine(stats.files)]
            + (if c.includeSize then ["- **总大小**: " + FormatSize(stats.totalSize)] else []))
  }

  /** `generate_markdown` once the tree is built: the placeholder when there
      is no tree, otherwise the header, the fenced tree and the statistics. */
  function DocumentOf(c: Config, title: string, t: Option<Node>, stats: Stats): (ls: seq<string>)
    ensures t.None? ==> ls == Placeholder
    ensures t.Some? ==>
      |ls| >= 9 && ls[..3] == Header(title) && ls[3] == RootLine(title, t.value)
      && DirsLine(stats.dirs) in ls
      && (!c.onlyDirs ==> FilesLine(stats.files) in ls)
  {
    match t
    case None => Placeholder
    case Some(n) =>
      ThreeParts(Header(title), TreeBlock(c, title, n), Footer(c, stats));
      Header(title) + TreeBlock(c, title, n) + Footer(c, stats)
  }

  /** `generate_markdown`: builds the tree afresh, then writes it out. `title`
      is the generator's display name for the root. The statistics report
      the tree that is printed. */
  function DocumentLines(c: Config, title: string, root: Entry): (ls: seq<string>)
    ensures var t := GenerateTree(c, root).0; t.None? ==> ls == Placeholder
    ensures var t := GenerateTree(c, root).0; t.Some? ==> var n := t.value;
      |ls| >= 9 && ls[..3] == Header(title) && ls[3] == RootLine(title, n)
      && DirsLine(Tally(n).dirs) in ls
      && (!c.onlyDirs ==> FilesLine(Tally(n).files) in ls)
  {
    var r := GenerateTree(c, root);
    DocumentOf(c, title, r.0, r.1)
  }

  /** Where the parts of a header, block and footer land in the joined lines. */
  lemma ThreeParts(h: seq<string>, b: seq<string>, f: seq<string>)
    requires |h| == 3 && |b| >= 1 && |f| >= 5
    ensures var ls := h + b + f;
      |ls| >= 9 && ls[..3] == h && ls[3] == b[0] && ls[3 + |b| + 4] == f[4]
      && (|f| >= 6 ==> ls[3 + |b| + 5] == f[5])
  {
  }

  function Document(c: Config, title: string, root: Entry): string {
    Unlines(DocumentLines(c, title, root))
  }

  // ---------------------------------------------------------------------------
  // A reference description of the lines: one per node in pre-order, each
  // determined by the node and the last-sibling flags on its path.

  /** A node reached in pre-order: `lasts` holds the last-sibling flag of each
      node on the path from the root's child down to this node (so its length
      is the depth), `parent` the position of the parent's visit, or -1 below
      the root. */
  datatype Visit = Visit(node: Node, lasts: seq<bool>, parent: int)

  /** Visits of `cs` and their descendants in pre-order, the first at
      position `base`, the parent path given by `path`. */
  function Preorder(cs: seq<Node>, path: seq<bool>, parent: int, base: int): (vs: seq<Visit>)
    ensures |vs| == TallyAll(cs).dirs + TallyAll(cs).files
  {
    if cs == [] then []
    else
      var flags := path + [|cs| == 1];
      var below := Below(cs[0], flags, base);
      [Visit(cs[0], flags, parent)] + below + Preorder(cs[1..], path, parent, base + 1 + |below|)
  }

  /** Visits of the descendants of `n`, whose own visit sits at `base`. */
  function Below(n: Node, flags: seq<bool>, base: int): (vs: seq<Visit>)
    ensures |vs| == TallyAll(Children(n)).dirs + TallyAll(Children(n)).files
  {
    match n
    case File(_, _) => []
    case Dir(_, gs) => Preorder(gs, flags, base, base + 1)
  }

  function Ancestors(lasts: seq<bool>): seq<bool> {
    if lasts == [] then [] else lasts[..|lasts| - 1]
  }

  predicate IsLastSibling(lasts: seq<bool>) {
    lasts != [] && lasts[|lasts| - 1]
  }

  function RefLine(c: Config, v: Visit): string {
    NodeLine(c, v.node, IndentOf(Ancestors(v.lasts)), IsLastSibling(v.lasts))
  }

  function RefLines(c: Config, vs: seq<Visit>): (ls: seq<string>)
    ensures |ls| == |vs|
  {
    if vs == [] then [] else [RefLine(c, vs[0])] + RefLines(c, vs[1..])
  }

  /** Line `i` of the reference lines describes visit `i`. */
  lemma {:induction false} RefLinesAt(c: Config, vs: seq<Visit>)
    ensures forall i :: 0 <= i < |vs| ==> RefLines(c, vs)[i] == RefLine(c, vs[i])
  {
    if vs != [] {
      RefLinesAt(c, vs[1..]);
    }
  }

  /** No node of the tree carries `name`. */
  predicate Avoids(n: Node, name: string) {
    n.name != name && forall i :: 0 <= i < |Children(n)| ==> Avoids(Children(n)[i], name)
  }

  /** No node of the forest carries `name`. */
  predicate NoneNamed(cs: seq<Node>, name: string) {
    forall i :: 0 <= i < |cs| ==> Avoids(cs[i], name)
  }

  lemma {:induction false} RefLinesAppend(c: Config, a: seq<Visit>, b: seq<Visit>)
    ensures RefLines(c, a + b) == RefLines(c, a) + RefLines(c, b)
  {
    if a != [] {
      RefLinesAppend(c, a[1..], b);
      calc {
        RefLines(c, a + b);
        { assert (a + b)[0] == a[0] && (a + b)[1..] == a[1..] + b; }
        [RefLine(c, a[0])] + RefLines(c, a[1..] + b);
        [RefLine(c, a[0])] + RefLines(c, a[1..]) + RefLines(c, b);
        RefLines(c, a) + RefLines(c, b);
      }
    } else {
      assert a + b == b;
    }
  }

  /** Whenever no descendant shares the root's name, the writer emits exactly
      one line per node, in pre-order, and each line is the node's ancestry
      prefix, its connector, marker, name and size suffix. */
  lemma {:induction false} ChildLinesArePreorder(c: Config, rootName: string, cs: seq<Node>, path: seq<bool>, parent: int, base: int)
    requires NoneNamed(cs, rootName)
    ensures ChildLines(c, rootName, cs, IndentOf(path)) == RefLines(c, Preorder(cs, path, parent, base))
    decreases cs, 1
  {
    if cs != [] {
      NoneNamedTail(cs, rootName);
      var next := base + |TreeVisits(cs[0], path + [|cs| == 1], parent, base)|;
      TreeLinesArePreorder(c, rootName, cs[0], path, |cs| == 1, parent, base);
      ChildLinesArePreorder(c, rootName, cs[1..], path, parent, next);
      ForestStep(c, rootName, cs, path, parent, base, next);
    }
  }

  /** The inductive step: the first tree's lines, then the rest's, are the
      reference lines of the whole forest. */
  lemma ForestStep(c: Config, rootName: string, cs: seq<Node>, path: seq<bool>, parent: int, base: int, next: int)
    requires cs != [] && next == base + |TreeVisits(cs[0], path + [|cs| == 1], parent, base)|
    requires TreeLines(c, rootName, cs[0], IndentOf(path), |cs| == 1) == RefLines(c, TreeVisits(cs[0], path + [|cs| == 1], parent, base))
    requires ChildLines(c, rootName, cs[1..], IndentOf(path)) == RefLines(c, Preorder(cs[1..], path, parent, next))
    ensures ChildLines(c, rootName, cs, IndentOf(path)) == RefLines(c, Preorder(cs, path, parent, base))
  {
    var P := IndentOf(path);
    calc {
      ChildLines(c, rootName, cs, P);
      { ChildLinesFirst(c, rootName, cs, P); }
      TreeLines(c, rootName, cs[0], P, |cs| == 1) + ChildLines(c, rootName, cs[1..], P);
      RefLines(c, TreeVisits(cs[0], path + [|cs| == 1], parent, base)) + RefLines(c, Preorder(cs[1..], path, parent, next));
      { RefLinesOfForest(c, cs, path, parent, base, next); }
      RefLines(c, Preorder(cs, path, parent, base));
    }
  }

  /** The visits of a tree: its own, then its descendants'. */
  function TreeVisits(n: Node, flags: seq<bool>, parent: int, base: int): seq<Visit> {
    [Visit(n, flags, parent)] + Below(n, flags, base)
  }

  /** A forest's visits: its first tree's own, then that tree's
      descendants', then the rest's. */
  lemma PreorderCons(cs: seq<Node>, path: seq<bool>, parent: int, base: int)
    requires cs != []
    ensures Preorder(cs, path, parent, base)
      == [Visit(cs[0], path + [|cs| == 1], parent)] + Below(cs[0], path + [|cs| == 1], base)
         + Preorder(cs[1..], path, parent, base + 1 + |Below(cs[0], path + [|cs| == 1], base)|)
  {
  }

  /** The reference lines of a forest are its first tree's, then the rest's. */
  lemma RefLinesOfForest(c: Config, cs: seq<Node>, path: seq<bool>, parent: int, base: int, next: int)
    requires cs != [] && next == base + |TreeVisits(cs[0], path + [|cs| == 1], parent, base)|
    ensures RefLines(c, TreeVisits(cs[0], path + [|cs| == 1], parent, base)) + RefLines(c, Preorder(cs[1..], path, parent, next))
      == RefLines(c, Preorder(cs, path, parent, base))
  {
    var head, rest := TreeVisits(cs[0], path + [|cs| == 1], parent, base), Preorder(cs[1..], path, parent, next);
    assert Preorder(cs, path, parent, base) == head + rest;
    RefLinesAppend(c, head, rest);
  }

  lemma ChildLinesFirst(c: Config, rootName: string, cs: seq<Node>, prefix: string)
    requires cs != []
    ensures ChildLines(c, rootName, cs, prefix)
      == TreeLines(c, rootName, cs[0], prefix, |cs| == 1) + ChildLines(c, rootName, cs[1..], prefix)
  {
  }

  lemma NoneNamedTail(cs: seq<Node>, name: string)
    requires cs != [] && NoneNamed(cs, name)
    ensures Avoids(cs[0], name) && NoneNamed(cs[1..], name)
  {
    assert forall i :: 0 <= i < |cs| - 1 ==> cs[1..][i] == cs[i + 1];
  }

  lemma {:induction false} TreeLinesArePreorder(c: Config, rootName: string, n: Node, path: seq<bool>, isLast: bool, parent: int, base: int)
    requires Avoids(n, rootName)
    ensures TreeLines(c, rootName, n, IndentOf(path), isLast) == RefLines(c, TreeVisits(n, path + [isLast], parent, base))
    decreases n, 0
  {
    var flags := path + [isLast];
    assert flags[..|flags| - 1] == path;
    assert IndentOf(flags) == IndentOf(path) + Indent(isLast);
    RefLinesAppend(c, [Visit(n, flags, parent)], Below(n, flags, base));
    match n
    case File(_, _) =>
    case Dir(_, gs) =>
      assert NoneNamed(gs, rootName) by {
        assert Children(n) == gs;
      }
      ChildLinesArePreorder(c, rootName, gs, flags, base, base + 1);
  }

  // ---------------------------------------------------------------------------
  // The document.

  /** The placeholder is printed exactly when there is no tree. */
  lemma PlaceholderIffNoTree(c: Config, title: string, root: Entry)
    ensures DocumentLines(c, title, root) == Placeholder <==> GenerateTree(c, root).0.None?
  {
    var doc := DocumentLines(c, title, root);
    if GenerateTree(c, root).0.Some? {
      assert doc[0] == "# 目录结构: " + title;
      assert |doc[0]| != |Placeholder[0]|;
    }
  }

  /** With no descendant reusing the root's name, the fenced block is the
      root line and one line per node below the root, in pre-order: as many
      tree lines as nodes other than the root. */
  lemma TreeBlockShape(c: Config, title: string, n: Node)
    requires NoneNamed(Children(n), n.name)
    ensures var body := RefLines(c, Preorder(Children(n), [], -1, 0));
      TreeBlock(c, title, n) == [RootLine(title, n)] + body
      && |body| + 1 == Tally(n).dirs + Tally(n).files
  {
    ChildLinesArePreorder(c, n.name, Children(n), [], -1, 0);
    assert IndentOf([]) == "";
  }

  // ---------------------------------------------------------------------------
  // Nodes that reuse the root's name print no line of their own.

  /** How many nodes of the tree do not carry `name`. */
  function Shown(name: string, n: Node): nat {
    (if n.name != name then 1 else 0)
    + match n
      case File(_, _) => 0
      case Dir(_, cs) => ShownAll(name, cs)
  }

  /** How many nodes of the forest do not carry `name`. */
  function ShownAll(name: string, cs: seq<Node>): nat {
    if cs == [] then 0 else Shown(name, cs[0]) + ShownAll(name, cs[1..])
  }

  /** The number of nodes of a tree. */
  function NodeCount(n: Node): nat {
    1 + match n
        case File(_, _) => 0
        case Dir(_, cs) => NodeCountAll(cs)
  }

  /** The number of nodes of a forest. */
  function NodeCountAll(cs: seq<Node>): nat {
    if cs == [] then 0 else NodeCount(cs[0]) + NodeCountAll(cs[1..])
  }

  /** The writer prints one line for each node that does not carry the root's
      name, whatever the tree. */
  lemma {:induction false} TreeLinesCount(c: Config, rootName: string, n: Node, prefix: string, isLast: bool)
    ensures |TreeLines(c, rootName, n, prefix, isLast)| == Shown(rootName, n)
    decreases n, 0
  {
    match n
    case File(_, _) =>
    case Dir(_, cs) =>
      ChildLinesCount(c, rootName, cs, if n.name == rootName then prefix else prefix + Indent(isLast));
  }

  lemma {:induction false} ChildLinesCount(c: Config, rootName: string, cs: seq<Node>, prefix: string)
    ensures |ChildLines(c, rootName, cs, prefix)| == ShownAll(rootName, cs)
    decreases cs, 1
  {
    if cs != [] {
      TreeLinesCount(c, rootName, cs[0], prefix, |cs| == 1);
      ChildLinesCount(c, rootName, cs[1..], prefix);
    }
  }

  /** Fewer nodes are shown than there are, and all of them exactly when none
      carries the name. */
  lemma {:induction false} ShownCount(name: string, n: Node)
    ensures Shown(name, n) <= NodeCount(n)
    ensures Shown(name, n) == NodeCount(n) <==> Avoids(n, name)
    decreases n, 0
  {
    match n
    case File(_, _) =>
    case Dir(_, cs) =>
      ShownAllCount(name, cs);
      assert Children(n) == cs;
  }

  lemma {:induction false} ShownAllCount(name: string, cs: seq<Node>)
    ensures ShownAll(name, cs) <= NodeCountAll(cs)
    ensures ShownAll(name, cs) == NodeCountAll(cs) <==> NoneNamed(cs, name)
    decreases cs, 1
  {
    if cs != [] {
      ShownCount(name, cs[0]);
      ShownAllCount(name, cs[1..]);
      assert NoneNamed(cs, name) <==> Avoids(cs[0], name) && NoneNamed(cs[1..], name) by {
        if Avoids(cs[0], name) && NoneNamed(cs[1..], name) {
          forall i | 0 <= i < |cs| ensures Avoids(cs[i], name) {
            if i > 0 { assert cs[i] == cs[1..][i - 1]; }
          }
        }
        if NoneNamed(cs, name) { NoneNamedTail(cs, name); }
      }
    }
  }

  /** The fenced block holds the root line and one line per node below the
      root that does not reuse the root's name; it is one line per node exactly
      when no node below the root reuses it. */
  lemma BlockLineCount(c: Config, title: string, root: Node)
    ensures |TreeBlock(c, title, root)| == 1 + ShownAll(root.name, Children(root))
    ensures |TreeBlock(c, title, root)| <= NodeCount(root)
    ensures |TreeBlock(c, title, root)| == NodeCount(root) <==> NoneNamed(Children(root), root.name)
  {
    ChildLinesCount(c, root.name, Children(root), "");
    ShownAllCount(root.name, Children(root));
    match root
    case File(_, _) =>
    case Dir(_, cs) =>
  }

  /** A root `mysite` holding a directory also named `mysite` that holds one
      file: three nodes, but the inner directory prints no line, and the file
      is drawn directly under the root line, as the root's last child. */
  lemma SameNameSubdirectory(c: Config, size: nat)
    ensures var f := File("settings.py", size);
      var t := Dir("mysite", [Dir("mysite", [f])]);
      NodeCount(t) == 3
      && TreeBlock(c, "mysite", t) == [RootLine("mysite", t), NodeLine(c, f, "", true)]
  {
    var f := File("settings.py", size);
    var inner := Dir("mysite", [f]);
    var t := Dir("mysite", [inner]);
    assert [f][1..] == [] && [inner][1..] == [];
    assert NodeCountAll([f]) == 1;
    assert NodeCountAll([inner]) == NodeCount(inner) == 2;
    assert ChildLines(c, "mysite", [f], "") == [NodeLine(c, f, "", true)];
    assert TreeLines(c, "mysite", inner, "", true) == [NodeLine(c, f, "", true)];
  }

  /** A document with a tree is the header, the fenced block and the
      statistics of the very tree that was printed. */
  lemma DocumentShape(c: Config, title: string, root: Entry, n: Node)
    requires GenerateTree(c, root).0 == Some(n)
    ensures DocumentLines(c, title, root) == Header(title) + TreeBlock(c, title, n) + Footer(c, Tally(n))
  {
  }
}
