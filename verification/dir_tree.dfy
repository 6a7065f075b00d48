/** The directory-tree builder: `DirectoryTree.should_ignore`, `build_tree` and
    `generate_tree`, over an immutable picture of the filesystem. The running
    counters the source keeps on the object are threaded through as a returned
    accumulator. */
module DirTree {
  import opened Text

  /** The names skipped when the include-all flag is off. */
  const DefaultIgnoreNames: set<string> := {
    ".git", ".svn", ".hg", ".bzr",
    "__pycache__", ".pytest_cache", ".mypy_cache",
    "node_modules", ".next", ".nuxt",
    "cache", ".cache", "tmp", "temp",
    ".idea", ".vscode", ".vs",
    "dist", "build", ".build",
    ".venv", "venv", "env", ".env",
    ".DS_Store", "Thumbs.db"
  }

  /** The constructor arguments of `DirectoryTree`; `maxDepth == None` is "no limit". */
  datatype Config = Config(
    ignoreNames: set<string>,
    includeAll: bool,
    onlyDirs: bool,
    maxDepth: Option<int>,
    includeSize: bool)

  /** A filesystem entry as the builder sees it. A file's size is `None` when
      the size lookup fails; a directory's listing is already in sorted order,
      or is `Unreadable` when listing it raises. */
  datatype Entry =
    | FileEntry(name: string, size: Option<nat>)
    | DirEntry(name: string, listing: Listing)

  datatype Listing = Readable(entries: seq<Entry>) | Unreadable

  /** A node of the built tree. */
  datatype Node =
    | File(name: string, size: nat)
    | Dir(name: string, children: seq<Node>)

  /** The three counters: directories, files and total file size in bytes. */
  datatype Stats = Stats(dirs: nat, files: nat, totalSize: nat) {
    function Plus(other: Stats): Stats {
      Stats(dirs + other.dirs, files + other.files, totalSize + other.totalSize)
    }
  }

  function NoStats(): Stats { Stats(0, 0, 0) }

  /** A directory adds one to the directory count, then its children's counts. */
  lemma DirCounters(acc: Stats, name: string, cs: seq<Node>, out: Stats)
    requires out == acc.Plus(Stats(1, 0, 0)).Plus(TallyAll(cs))
    ensures out == acc.Plus(Tally(Dir(name, cs)))
  {
  }

  /** `should_ignore`: nothing is skipped in include-all mode; otherwise a
      name is skipped when it is listed or starts with a dot. */
  function ShouldIgnore(c: Config, name: string): (ignored: bool)
    ensures c.includeAll ==> !ignored
    ensures !c.includeAll ==> (ignored <==> name in c.ignoreNames || "." <= name)
  {
    !c.includeAll && (name in c.ignoreNames || (|name| > 0 && name[0] == '.'))
  }

  /** The configuration the command line builds: the default names are
      skipped unless everything is included, in which case none are listed. */
  function CommandLineConfig(includeAll: bool, onlyDirs: bool, maxDepth: Option<int>, includeSize: bool): (c: Config)
    ensures c.includeAll == includeAll && c.onlyDirs == onlyDirs
      && c.maxDepth == maxDepth && c.includeSize == includeSize
    ensures !includeAll ==> c.ignoreNames == DefaultIgnoreNames
  {
    Config(if includeAll then {} else DefaultIgnoreNames, includeAll, onlyDirs, maxDepth, includeSize)
  }

  function Children(n: Node): seq<Node> {
    match n
    case File(_, _) => []
    case Dir(_, cs) => cs
  }

  // ---------------------------------------------------------------------------
  // Measures of a built tree, independent of how it was built.

  /** Directory nodes, file nodes and summed file sizes of a tree. */
  function Tally(n: Node): Stats {
    match n
    case File(_, size) => Stats(0, 1, size)
    case Dir(_, cs) => Stats(1, 0, 0).Plus(TallyAll(cs))
  }

  function TallyAll(ns: seq<Node>): Stats {
    if ns == [] then NoStats() else Tally(ns[0]).Plus(TallyAll(ns[1..]))
  }

  function TallyOf(t: Option<Node>): Stats {
    match t
    case None => NoStats()
    case Some(n) => Tally(n)
  }

  /** Number of edges on the longest downward path. */
  function Height(n: Node): nat {
    match n
    case File(_, _) => 0
    case Dir(_, cs) => if cs == [] then 0 else 1 + MaxHeight(cs)
  }

  function MaxHeight(ns: seq<Node>): nat {
    if ns == [] then 0
    else
      var h := Height(ns[0]);
      var t := MaxHeight(ns[1..]);
      if h < t then t else h
  }

  predicate NoFiles(n: Node) {
    match n
    case File(_, _) => false
    case Dir(_, cs) => forall i :: 0 <= i < |cs| ==> NoFiles(cs[i])
  }

  function Names(ns: seq<Node>): seq<string> {
    if ns == [] then [] else [ns[0].name] + Names(ns[1..])
  }

  // ---------------------------------------------------------------------------
  // The builder.

  /** Number of entries in the picture, a termination measure. */
  function EntrySize(e: Entry): (s: nat)
    ensures s >= 1
  {
    match e
    case FileEntry(_, _) => 1
    case DirEntry(_, Unreadable) => 1
    case DirEntry(_, Readable(es)) => 1 + EntriesSize(es)
  }

  function EntriesSize(es: seq<Entry>): nat {
    if es == [] then 0 else EntrySize(es[0]) + EntriesSize(es[1..])
  }

  predicate BeyondDepth(c: Config, depth: int) {
    c.maxDepth.Some? && depth > c.maxDepth.value
  }

  /** Whether `build_tree` returns a node for `e` at `depth`: not past the
      depth limit, and not a file in directories-only mode. */
  predicate Admits(c: Config, e: Entry, depth: int) {
    !BeyondDepth(c, depth) && !(e.FileEntry? && c.onlyDirs)
  }

  /** The listing entries that end up as children, in listing order. */
  function Kept(c: Config, es: seq<Entry>, depth: int): seq<Entry> {
    if es == [] then []
    else if !ShouldIgnore(c, es[0].name) && Admits(c, es[0], depth) then [es[0]] + Kept(c, es[1..], depth)
    else Kept(c, es[1..], depth)
  }

  function EntryNames(es: seq<Entry>): seq<string> {
    if es == [] then [] else [es[0].name] + EntryNames(es[1..])
  }

  /** The size recorded for a file: the looked-up size, or 0 when the lookup fails. */
  function SizeOrZero(size: Option<nat>): nat {
    if size.Some? then size.value else 0
  }

  /** `n` is what the builder makes of `e`: the same name and kind, a file
      with the entry's size (or 0), and no children under a directory whose
      listing cannot be read. */
  predicate BuiltFrom(n: Node, e: Entry) {
    && n.name == e.name
    && match n
       case File(_, size) => e.FileEntry? && size == SizeOrZero(e.size)
       case Dir(_, cs) => e.DirEntry? && (e.listing.Unreadable? ==> cs == [])
  }

  /** `build_tree(path, depth)` with the counters `acc` on entry; returns the
      node (or `None`) and the counters on exit. */
  function Build(c: Config, e: Entry, depth: int, acc: Stats): (r: (Option<Node>, Stats))
    ensures r.0.Some? <==> Admits(c, e, depth)
    ensures r.0.Some? ==> r.0.value.name == e.name && (r.0.value.Dir? <==> e.DirEntry?)
    ensures r.0.Some? ==> BuiltFrom(r.0.value, e)
    ensures r.1 == acc.Plus(TallyOf(r.0))
    decreases EntrySize(e), 2
  {
    if BeyondDepth(c, depth) then (None, acc)
    else if e.FileEntry? then BuildFile(c, e, acc)
    else
      var (n, acc') := BuildDir(c, e, depth, acc);
      (Some(n), acc')
  }

  /** The file branch: dropped in directories-only mode, otherwise counted,
      with size 0 when the size lookup fails. */
  function BuildFile(c: Config, e: Entry, acc: Stats): (r: (Option<Node>, Stats))
    requires e.FileEntry?
    ensures r.0.Some? <==> !c.onlyDirs
    ensures r.0.Some? ==> r.0.value == File(e.name, SizeOrZero(e.size))
    ensures r.1 == acc.Plus(TallyOf(r.0))
  {
    if c.onlyDirs then (None, acc)
    else
      var s := SizeOrZero(e.size);
      (Some(File(e.name, s)), acc.Plus(Stats(0, 1, s)))
  }

  /** The directory branch: counted before its listing is read; the children
      are attached only once the whole listing has been processed, so an
      unreadable listing leaves the directory empty. */
  function BuildDir(c: Config, e: Entry, depth: int, acc: Stats): (r: (Node, Stats))
    requires e.DirEntry?
    ensures r.0.Dir? && r.0.name == e.name
    ensures e.listing.Unreadable? ==> r.0.children == []
    ensures r.1 == acc.Plus(Tally(r.0))
    decreases EntrySize(e), 1
  {
    var acc1 := acc.Plus(Stats(1, 0, 0));
    if e.listing.Unreadable? then
      DirCounters(acc, e.name, [], acc1);
      (Dir(e.name, []), acc1)
    else
      var built := BuildAll(c, e.listing.entries, depth + 1, acc1);
      DirCounters(acc, e.name, built.0, built.1);
      (Dir(e.name, built.0), built.1)
  }

  /** The loop over a directory's sorted listing, children at `depth`. */
  function BuildAll(c: Config, es: seq<Entry>, depth: int, acc: Stats): (r: (seq<Node>, Stats))
    ensures Names(r.0) == EntryNames(Kept(c, es, depth))
    ensures |r.0| == |Kept(c, es, depth)|
      && forall i :: 0 <= i < |r.0| ==> BuiltFrom(r.0[i], Kept(c, es, depth)[i])
    ensures r.1 == acc.Plus(TallyAll(r.0))
    decreases EntriesSize(es), 3
  {
    if es == [] then ([], acc)
    else if ShouldIgnore(c, es[0].name) then BuildAll(c, es[1..], depth, acc)
    else
      var (n, acc1) := Build(c, es[0], depth, acc);
      var (rest, acc2) := BuildAll(c, es[1..], depth, acc1);
      match n
      case None => (rest, acc2)
      case Some(node) => ([node] + rest, acc2)
  }

  /** `generate_tree`: counters reset, the root built at depth 0 and never
      tested against the ignore rule. */
  function GenerateTree(c: Config, root: Entry): (r: (Option<Node>, Stats))
    ensures r.1 == TallyOf(r.0)
    ensures r.0 == None <==> (c.maxDepth.Some? && c.maxDepth.value < 0) || (root.FileEntry? && c.onlyDirs)
  {
    Build(c, root, 0, NoStats())
  }

  // ---------------------------------------------------------------------------
  // Properties of the built tree.

  /** How a readable directory's node is made: its children are the loop's result. */
  lemma BuildReadableDir(c: Config, e: Entry, depth: int, acc: Stats)
    requires !BeyondDepth(c, depth) && e.DirEntry? && e.listing.Readable?
    ensures var all := BuildAll(c, e.listing.entries, depth + 1, acc.Plus(Stats(1, 0, 0)));
      Build(c, e, depth, acc) == (Some(Dir(e.name, all.0)), all.1)
  {
  }

  /** How the loop steps over one entry of the listing. */
  lemma BuildAllStep(c: Config, es: seq<Entry>, depth: int, acc: Stats)
    requires es != []
    ensures ShouldIgnore(c, es[0].name) ==> BuildAll(c, es, depth, acc) == BuildAll(c, es[1..], depth, acc)
    ensures !ShouldIgnore(c, es[0].name) ==>
      var (n, acc1) := Build(c, es[0], depth, acc);
      var (rest, acc2) := BuildAll(c, es[1..], depth, acc1);
      BuildAll(c, es, depth, acc) == (if n.Some? then [n.value] + rest else rest, acc2)
  {
  }

  /** An entry survives the listing filter exactly when its name is not
      ignored and the builder returns a node for it. */
  lemma {:induction false} KeptMembers(c: Config, es: seq<Entry>, depth: int)
    ensures forall e :: e in Kept(c, es, depth) <==> e in es && !ShouldIgnore(c, e.name) && Admits(c, e, depth)
  {
    if es != [] {
      KeptMembers(c, es[1..], depth);
      assert es == [es[0]] + es[1..];
    }
  }

  lemma MaxHeightCons(n: Node, rest: seq<Node>)
    ensures MaxHeight([n] + rest) == if Height(n) < MaxHeight(rest) then MaxHeight(rest) else Height(n)
  {
    assert ([n] + rest)[1..] == rest;
  }

  /** No node lies deeper than the depth limit: a node built at `depth` has
      nothing below `maxDepth`. */
  lemma {:induction false} BuildWithinDepth(c: Config, e: Entry, depth: int, acc: Stats)
    requires c.maxDepth.Some?
    ensures var r := Build(c, e, depth, acc).0;
      r.Some? ==> depth + Height(r.value) <= c.maxDepth.value
    decreases EntrySize(e), 1
  {
    if !BeyondDepth(c, depth) && e.DirEntry? && e.listing.Readable? {
      BuildReadableDir(c, e, depth, acc);
      BuildAllWithinDepth(c, e.listing.entries, depth + 1, acc.Plus(Stats(1, 0, 0)));
    }
  }

  lemma {:induction false} BuildAllWithinDepth(c: Config, es: seq<Entry>, depth: int, acc: Stats)
    requires c.maxDepth.Some?
    ensures var r := BuildAll(c, es, depth, acc).0;
      r != [] ==> depth + MaxHeight(r) <= c.maxDepth.value
    decreases EntriesSize(es), 2
  {
    if es != [] {
      BuildAllStep(c, es, depth, acc);
      if ShouldIgnore(c, es[0].name) {
        BuildAllWithinDepth(c, es[1..], depth, acc);
      } else {
        var (n, acc1) := Build(c, es[0], depth, acc);
        BuildWithinDepth(c, es[0], depth, acc);
        BuildAllWithinDepth(c, es[1..], depth, acc1);
        var (rest, _) := BuildAll(c, es[1..], depth, acc1);
        if n.Some? {
          MaxHeightCons(n.value, rest);
        }
      }
    }
  }

  /** `max_depth = 0` keeps only the root: one directory, no files. */
  lemma DepthZeroIsRootOnly(c: Config, root: Entry)
    requires c.maxDepth == Some(0) && root.DirEntry?
    ensures GenerateTree(c, root) == (Some(Dir(root.name, [])), Stats(1, 0, 0))
  {
    GeneratedWithinDepth(c, root);
    var r := GenerateTree(c, root);
    assert r.0.value.Dir? && r.0.value.name == root.name;
    assert r.0.value.children == [];
    LeafDirTally(r.0.value);
  }

  /** A directory with no children counts as one directory and nothing else. */
  lemma LeafDirTally(n: Node)
    requires n.Dir? && n.children == []
    ensures Tally(n) == Stats(1, 0, 0)
  {
    assert TallyAll(n.children) == NoStats();
  }

  /** The whole tree lies within the depth limit. */
  lemma GeneratedWithinDepth(c: Config, root: Entry)
    requires c.maxDepth.Some?
    ensures var r := GenerateTree(c, root).0;
      r.Some? ==> Height(r.value) <= c.maxDepth.value
  {
    BuildWithinDepth(c, root, 0, NoStats());
  }

  /** In directories-only mode no file node is built. */
  lemma {:induction false} BuildOnlyDirs(c: Config, e: Entry, depth: int, acc: Stats)
    requires c.onlyDirs
    ensures var r := Build(c, e, depth, acc).0;
      r.Some? ==> NoFiles(r.value)
    decreases EntrySize(e), 1
  {
    if !BeyondDepth(c, depth) && e.DirEntry? && e.listing.Readable? {
      BuildReadableDir(c, e, depth, acc);
      BuildAllOnlyDirs(c, e.listing.entries, depth + 1, acc.Plus(Stats(1, 0, 0)));
    }
  }

  lemma {:induction false} BuildAllOnlyDirs(c: Config, es: seq<Entry>, depth: int, acc: Stats)
    requires c.onlyDirs
    ensures var r := BuildAll(c, es, depth, acc).0;
      forall i :: 0 <= i < |r| ==> NoFiles(r[i])
    decreases EntriesSize(es), 2
  {
    if es != [] {
      BuildAllStep(c, es, depth, acc);
      if ShouldIgnore(c, es[0].name) {
        BuildAllOnlyDirs(c, es[1..], depth, acc);
      } else {
        var (n, acc1) := Build(c, es[0], depth, acc);
        BuildOnlyDirs(c, es[0], depth, acc);
        BuildAllOnlyDirs(c, es[1..], depth, acc1);
      }
    }
  }

  lemma {:induction false} NoFilesCountsNoFiles(n: Node)
    requires NoFiles(n)
    ensures Tally(n).files == 0 && Tally(n).totalSize == 0
  {
    match n
    case Dir(_, cs) => NoFilesAllCountsNoFiles(cs);
  }

  lemma {:induction false} NoFilesAllCountsNoFiles(ns: seq<Node>)
    requires forall i :: 0 <= i < |ns| ==> NoFiles(ns[i])
    ensures TallyAll(ns).files == 0 && TallyAll(ns).totalSize == 0
  {
    if ns != [] {
      NoFilesCountsNoFiles(ns[0]);
      NoFilesAllCountsNoFiles(ns[1..]);
    }
  }

  /** Directories-only mode: no file nodes, and the file counter stays 0. */
  lemma GeneratedOnlyDirs(c: Config, root: Entry)
    requires c.onlyDirs
    ensures var (r, stats) := GenerateTree(c, root);
      (r.Some? ==> NoFiles(r.value)) && stats.files == 0 && stats.totalSize == 0
  {
    BuildOnlyDirs(c, root, 0, NoStats());
    var r := GenerateTree(c, root).0;
    if r.Some? {
      NoFilesCountsNoFiles(r.value);
    }
  }

  /** Every name below the root passes the ignore rule. */
  predicate NoIgnoredBelow(c: Config, n: Node) {
    forall i :: 0 <= i < |Children(n)| ==> !ShouldIgnore(c, Children(n)[i].name) && NoIgnoredBelow(c, Children(n)[i])
  }

  lemma {:induction false} BuildNoIgnored(c: Config, e: Entry, depth: int, acc: Stats)
    ensures var r := Build(c, e, depth, acc).0;
      r.Some? ==> NoIgnoredBelow(c, r.value)
    decreases EntrySize(e), 1
  {
    if !BeyondDepth(c, depth) && e.DirEntry? && e.listing.Readable? {
      BuildReadableDir(c, e, depth, acc);
      BuildAllNoIgnored(c, e.listing.entries, depth + 1, acc.Plus(Stats(1, 0, 0)));
    }
  }

  lemma {:induction false} BuildAllNoIgnored(c: Config, es: seq<Entry>, depth: int, acc: Stats)
    ensures var r := BuildAll(c, es, depth, acc).0;
      forall i :: 0 <= i < |r| ==> !ShouldIgnore(c, r[i].name) && NoIgnoredBelow(c, r[i])
    decreases EntriesSize(es), 2
  {
    if es != [] {
      BuildAllStep(c, es, depth, acc);
      if ShouldIgnore(c, es[0].name) {
        BuildAllNoIgnored(c, es[1..], depth, acc);
      } else {
        var (n, acc1) := Build(c, es[0], depth, acc);
        BuildNoIgnored(c, es[0], depth, acc);
        BuildAllNoIgnored(c, es[1..], depth, acc1);
      }
    }
  }

  /** The root is never tested against the ignore rule; everything below it is. */
  lemma GeneratedNoIgnored(c: Config, root: Entry)
    ensures var r := GenerateTree(c, root).0;
      r.Some? ==> r.value.name == root.name && NoIgnoredBelow(c, r.value)
  {
    BuildNoIgnored(c, root, 0, NoStats());
  }

  /** No node below `n` has one of the default names or a name starting with a dot. */
  predicate NoDefaultNamesBelow(n: Node) {
    forall i :: 0 <= i < |Children(n)| ==>
      Children(n)[i].name !in DefaultIgnoreNames && !("." <= Children(n)[i].name)
      && NoDefaultNamesBelow(Children(n)[i])
  }

  lemma {:induction false} NoIgnoredHasNoDefaultNames(c: Config, n: Node)
    requires !c.includeAll && c.ignoreNames == DefaultIgnoreNames && NoIgnoredBelow(c, n)
    ensures NoDefaultNamesBelow(n)
  {
    forall i | 0 <= i < |Children(n)|
      ensures NoDefaultNamesBelow(Children(n)[i])
    {
      NoIgnoredHasNoDefaultNames(c, Children(n)[i]);
    }
  }

  /** Run from the command line without include-all, the tree holds none of
      the default names and no hidden name below its root. */
  lemma DefaultNamesNeverBelowRoot(onlyDirs: bool, maxDepth: Option<int>, includeSize: bool, root: Entry)
    ensures var r := GenerateTree(CommandLineConfig(false, onlyDirs, maxDepth, includeSize), root).0;
      r.Some? ==> NoDefaultNamesBelow(r.value)
  {
    var c := CommandLineConfig(false, onlyDirs, maxDepth, includeSize);
    GeneratedNoIgnored(c, root);
    var r := GenerateTree(c, root).0;
    if r.Some? {
      NoIgnoredHasNoDefaultNames(c, r.value);
    }
  }

  /** With include-all, the command line skips nothing. */
  lemma IncludeAllKeepsEverything(onlyDirs: bool, maxDepth: Option<int>, includeSize: bool, es: seq<Entry>, depth: int)
    ensures var c := CommandLineConfig(true, onlyDirs, maxDepth, includeSize);
      forall e :: e in Kept(c, es, depth) <==> e in es && Admits(c, e, depth)
  {
    KeptMembers(CommandLineConfig(true, onlyDirs, maxDepth, includeSize), es, depth);
  }

  /** A root holding a file `a` of `sa` bytes and a directory `b` that
      holds a file `d` of `sd` bytes: the root counts as a directory too, so
      the counters read two directories, two files and `sa + sd` bytes. */
  lemma ExampleCounts(c: Config, root: string, a: string, b: string, d: string, sa: nat, sd: nat)
    requires !c.onlyDirs && (c.maxDepth.None? || c.maxDepth.value >= 2)
    requires !ShouldIgnore(c, a) && !ShouldIgnore(c, b) && !ShouldIgnore(c, d)
    ensures GenerateTree(c, DirEntry(root, Readable([FileEntry(a, Some(sa)), DirEntry(b, Readable([FileEntry(d, Some(sd))]))])))
         == (Some(Dir(root, [File(a, sa), Dir(b, [File(d, sd)])])), Stats(2, 2, sa + sd))
  {
    var fileD, fileA := FileEntry(d, Some(sd)), FileEntry(a, Some(sa));
    var dirB := DirEntry(b, Readable([fileD]));
    FileBuilt(c, d, sd, 2, Stats(2, 1, sa), Stats(2, 2, sa + sd));
    DirOfOne(c, b, fileD, File(d, sd), 1, Stats(1, 1, sa), Stats(2, 1, sa), Stats(2, 2, sa + sd));
    FileBuilt(c, a, sa, 1, Stats(1, 0, 0), Stats(1, 1, sa));
    PlusNothing(Stats(1, 0, 0));
    DirOfTwo(c, root, fileA, dirB, File(a, sa), Dir(b, [File(d, sd)]), 0, NoStats(), Stats(1, 0, 0), Stats(1, 1, sa), Stats(2, 2, sa + sd));
  }

  lemma PlusNothing(s: Stats)
    ensures NoStats().Plus(s) == s
  {
  }

  /** A file entry with a known size, when files are listed. */
  lemma FileBuilt(c: Config, name: string, size: nat, depth: int, acc: Stats, acc1: Stats)
    requires !c.onlyDirs && !BeyondDepth(c, depth) && acc1 == acc.Plus(Stats(0, 1, size))
    ensures Build(c, FileEntry(name, Some(size)), depth, acc) == (Some(File(name, size)), acc1)
  {
  }

  /** A readable directory listing one entry, which the builder keeps;
      `acc0` is the counters once the directory itself is counted. */
  lemma DirOfOne(c: Config, name: string, e: Entry, n: Node, depth: int, acc: Stats, acc0: Stats, acc1: Stats)
    requires acc0 == acc.Plus(Stats(1, 0, 0))
    requires !BeyondDepth(c, depth) && !ShouldIgnore(c, e.name)
    requires Build(c, e, depth + 1, acc0) == (Some(n), acc1)
    ensures Build(c, DirEntry(name, Readable([e])), depth, acc) == (Some(Dir(name, [n])), acc1)
  {
    SingleEntry(c, e, depth + 1, acc0, n, acc1);
    BuildReadableDir(c, DirEntry(name, Readable([e])), depth, acc);
  }

  /** A readable directory listing two entries, both of which the builder keeps. */
  lemma DirOfTwo(c: Config, name: string, e1: Entry, e2: Entry, n1: Node, n2: Node, depth: int, acc: Stats, acc0: Stats, acc1: Stats, acc2: Stats)
    requires acc0 == acc.Plus(Stats(1, 0, 0))
    requires !BeyondDepth(c, depth) && !ShouldIgnore(c, e1.name) && !ShouldIgnore(c, e2.name)
    requires Build(c, e1, depth + 1, acc0) == (Some(n1), acc1)
    requires Build(c, e2, depth + 1, acc1) == (Some(n2), acc2)
    ensures Build(c, DirEntry(name, Readable([e1, e2])), depth, acc) == (Some(Dir(name, [n1, n2])), acc2)
  {
    var es := [e1, e2];
    SingleEntry(c, e2, depth + 1, acc1, n2, acc2);
    assert es[1..] == [e2];
    EntryThenRest(c, es, depth + 1, acc0, n1, acc1, [n2], acc2);
    assert [n1] + [n2] == [n1, n2];
    BuildReadableDir(c, DirEntry(name, Readable(es)), depth, acc);
  }

  /** The loop over a listing whose first entry the builder keeps. */
  lemma EntryThenRest(c: Config, es: seq<Entry>, depth: int, acc: Stats, n: Node, acc1: Stats, rest: seq<Node>, acc2: Stats)
    requires es != [] && !ShouldIgnore(c, es[0].name)
    requires Build(c, es[0], depth, acc) == (Some(n), acc1)
    requires BuildAll(c, es[1..], depth, acc1) == (rest, acc2)
    ensures BuildAll(c, es, depth, acc) == ([n] + rest, acc2)
  {
    BuildAllStep(c, es, depth, acc);
  }

  /** The loop over a listing of one entry the builder keeps. */
  lemma SingleEntry(c: Config, e: Entry, depth: int, acc: Stats, n: Node, acc1: Stats)
    requires !ShouldIgnore(c, e.name) && Build(c, e, depth, acc) == (Some(n), acc1)
    ensures BuildAll(c, [e], depth, acc) == ([n], acc1)
  {
    var es := [e];
    assert es[1..] == [];
    assert BuildAll(c, es[1..], depth, acc1) == ([], acc1);
    EntryThenRest(c, es, depth, acc, n, acc1, [], acc1);
    assert [n] + [] == [n];
  }
}
