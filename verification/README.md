# dir2md, modelled in Dafny

`dir2md.py` turns a directory into a Markdown document. The document holds the directory's tree, drawn with box-drawing connectors inside a fenced code block, followed by a few counters. The same file also writes a small viewer program, and that program reads the tree back out of the document. This project models both halves of that format:

- **the writer.** `DirectoryTree` builds the tree, applying the ignore rule, the depth limit, directories-only mode and the counters; `format_size` prints byte counts. `MarkdownGenerator` turns the tree into lines.
- **the reader.** This is `parse_tree_lines`, embedded in the viewer template: a stack-based reconstruction of the tree from the indentation of each line.

It proves properties of each half, and of the two together. The central results:

- when no node below the root reuses the root's name, the writer's lines are exactly one line per node in pre-order, each fixed by the node and by which of its ancestors are last siblings. A node that does reuse it prints no line of its own (`Render.BlockLineCount`, `Render.SameNameSubdirectory`);
- for names that are non-empty and free of whitespace, and under the same condition on the root's name, a reader that counts the vertical bars as indentation gives the whole tree back;
- the reader as written does not: it loses every line drawn under a vertical bar (see "## Findings").

Modules, one per file:

- `Text` (`text.dfy`): Python's `str.isspace`, `strip`/`lstrip`, and decimal printing of naturals.
- `Glyphs` (`glyphs.dfy`): the markers, connectors and four-character indentation units shared by writer and reader.
- `DirTree` (`dir_tree.dfy`): `should_ignore`, `build_tree` and `generate_tree`. The filesystem is an immutable `Entry` value. The object's running counters are threaded through as a returned `Stats` accumulator.
- `SizeFormat` (`size_format.dfy`): `format_size` on exact integers.
- `Render` (`render.dfy`): `tree_to_lines` and `generate_markdown`. It also holds a reference description of the lines (`Preorder`, `RefLines`) that the writer is proved to meet.
- `Parse` (`parse.dfy`):
  - the two regular expressions of `parse_tree_lines`, written out as string functions;
  - the reader loop, as a fold producing a flat list of items with parent positions;
  - the stack invariant that makes those parents right.
- `RoundTrip` (`round_trip.dfy`): what each reader makes of the writer's output.

## Model

| member | source | states |
|---|---|---|
| DirTree.ShouldIgnore | dir2md.py:50-54 | Nothing is skipped in include-all mode. Otherwise a name is skipped exactly when it is in the ignore set or starts with a dot. |
| DirTree.DefaultNamesNeverBelowRoot | dir2md.py:13-22 | Run from the command line without include-all (`DirTree.CommandLineConfig`, which picks the default ignore set at dir2md.py:519), no node below the root carries one of the default names or a name starting with a dot. |
| DirTree.IncludeAllKeepsEverything | dir2md.py:50-53 | With include-all set on the command line (`DirTree.CommandLineConfig`, whose ignore set is then empty), an entry becomes a child exactly when it is listed and the builder admits it at that depth; no name is skipped. |
| DirTree.Build | dir2md.py:64-97 | A node is returned exactly when the entry is within the depth limit and is not a file in directories-only mode. The node keeps the entry's name and kind, and a file node keeps the entry's size, or 0. The counters on exit are the counters on entry plus the directories, files and bytes of the returned subtree. |
| DirTree.BuildFile | dir2md.py:86-95 | In directories-only mode a file yields no node and is not counted. Otherwise its node has its size, or 0 when the size lookup fails, and it adds one file and its size to the counters. |
| DirTree.BuildDir | dir2md.py:71-85 | A directory is counted. When its listing cannot be read it is kept with no children. |
| DirTree.BuildAll | dir2md.py:75-83 | The children are the listing entries that pass the ignore rule and get a node, in listing order, one child per such entry. Each child has its entry's name and kind. A file child has its entry's size, or 0 when the lookup fails. A directory child whose listing cannot be read has no children. The counters grow by exactly the children's subtrees. |
| DirTree.KeptMembers | dir2md.py:75-81 | An entry becomes a child exactly when it is listed, its name is not ignored, and the builder admits it at that depth. |
| DirTree.GenerateTree | dir2md.py:99-104 | With the counters reset, they equal the directory, file and byte totals of the returned tree. There is no tree exactly when the depth limit is negative, or the root is a file in directories-only mode. |
| DirTree.GeneratedWithinDepth | dir2md.py:66-67 | The returned tree is no taller than the depth limit. |
| DirTree.DepthZeroIsRootOnly | dir2md.py:66-72 | A depth limit of 0 on a directory gives the bare root and counts one directory and nothing else. |
| DirTree.GeneratedOnlyDirs | dir2md.py:86-95 | In directories-only mode the tree holds no file, and the file and byte counters stay 0. |
| DirTree.GeneratedNoIgnored | dir2md.py:50-54 | The root keeps its own name and is never tested against the ignore rule. Every node below it has a name the rule lets through. |
| DirTree.ExampleCounts | dir2md.py:64-104 | A root with one file and one subdirectory holding one file counts two directories, because the root counts too, two files, and the sum of the two sizes. |
| SizeFormat.FormatSize | dir2md.py:56-62 | The text is never empty and holds no parenthesis, so it fits inside the size group the reader matches. Its value is stated by `SizeFormat.FormatSizeMeaning`. |
| SizeFormat.UnitIndex | dir2md.py:58-61 | The unit is the least k with size < 1024^(k+1), capped at PB, and 1024^k <= size whenever k > 0. |
| SizeFormat.RoundHalfEven | dir2md.py:60 | The rounded quotient is within half a unit of n/d, and on an exact tie it is even. |
| SizeFormat.FixedTextValue | dir2md.py:60 | The two-decimal text reads back, digit by digit, as the hundredths it was printed from. |
| SizeFormat.FormatSizeMeaning | dir2md.py:56-62 | The text is the size in the chosen unit, rounded to hundredths within half a hundredth, followed by the unit's name. |
| SizeFormat.FormatSizeOfTen | dir2md.py:56-62 | 10 bytes print as "10.00 B". |
| SizeFormat.FormatSizeOfTwoKiB | dir2md.py:56-62 | 2048 bytes print as "2.00 KB". |
| SizeFormat.FormatSizeOfTwoKiBAndTen | dir2md.py:56-62 | 2058 bytes print as "2.01 KB". |
| Text.Strip | dir2md.py:290 | The result is the line less its leading whitespace run and its trailing whitespace: the slice starting after the leading run, with only whitespace after it. It has no whitespace at either end. It is empty exactly when the line is all whitespace. A line already without edge whitespace is unchanged. |
| Text.NatTextValue | dir2md.py:169 | The decimal text of a count reads back as the count. |
| Glyphs.IndentAt | dir2md.py:137-138 | In an ancestry prefix, a character is a bar exactly at the start of the unit of an ancestor that is not a last sibling. Every other character is a space. |
| Render.TreeLines | dir2md.py:114-142 | Every line of a subtree starts with the prefix it was given, and there is at most one line per node of the subtree. |
| Render.ChildLines | dir2md.py:130-140 | Every line drawn for a list of siblings starts with the prefix they were given, and there is at most one line per node. |
| Render.TreeLinesCount | dir2md.py:119-140 | For any subtree, the writer prints exactly one line for each node whose name differs from the root's name. A node carrying the root's name prints nothing itself, but its children are still drawn. |
| Render.ChildLinesCount | dir2md.py:130-140 | For any list of siblings, the lines number exactly the nodes of those subtrees that do not carry the root's name. |
| Render.ShownCount | dir2md.py:119 | The nodes whose name differs from a given name are at most all the nodes of the tree. They are all of them exactly when no node carries that name. |
| Render.BlockLineCount | dir2md.py:155-163 | The fenced block has the root line plus one line per node below the root that does not reuse the root's name. So it has at most one line per node, and exactly one per node exactly when no node below the root reuses the root's name. |
| Render.SameNameSubdirectory | dir2md.py:134-136 | A root `mysite` holding a directory also named `mysite` that holds one file has three nodes but prints two lines. The inner directory has no line, and the file is drawn directly under the root line as its last child. |
| Render.DocumentOf | dir2md.py:146-175 | Without a tree the document is the placeholder. With one, it opens with the title header and the fence, then the root line, and it holds the directory-count line and, unless only directories are listed, the file-count line, for the counters it is given. |
| Render.DocumentLines | dir2md.py:144-175 | Without a tree the document is the placeholder. With one, it opens with the header and the root line. Its directory-count and file-count lines report the directories and files of the tree that is printed. |
| Render.TreeLinesArePreorder | dir2md.py:114-142 | When no node reuses the root's name, a subtree's lines are its nodes in pre-order. Each line is the ancestry prefix, the connector for a last or non-last sibling, the kind marker, the name and the size suffix. |
| Render.ChildLinesArePreorder | dir2md.py:130-140 | A list of siblings prints as the pre-order lines of each sibling in turn; only the final sibling is marked last. |
| Render.TreeBlockShape | dir2md.py:155-163 | When no node below the root reuses the root's name, the fenced block is the root line followed by one line per node below the root, in pre-order. |
| Render.PlaceholderIffNoTree | dir2md.py:146-149 | The placeholder text is produced exactly when the builder returns no tree. |
| Render.DocumentShape | dir2md.py:144-175 | A document with a tree is the header, the fenced block and the statistics of that very tree. |
| Parse.LazyEnd | dir2md.py:319 | The lazy name group ends at the first position from which the rest of the line matches the optional size group. |
| Parse.SizeOf | dir2md.py:319 | The size group's text is non-empty, holds no ')', and sits between '(' and the final ')' after whitespace. |
| Parse.ContentSplit | dir2md.py:319-321 | A line matches exactly when a directory or file marker sits at its start or right after a connector of three glyphs and whitespace, and the marker is followed by whitespace and at least one more character. A match consists of that marker, the whole whitespace run after it, and a name ending at the first place where the rest is an optional size group. |
| Parse.ParseContent | dir2md.py:319-325 | A line parses exactly when the pattern matches. Kind, name and size come from the marker, the name span and the size group, with "" when the group is absent. |
| Parse.ParseRoot | dir2md.py:290-295 | A stripped first line opening with the folder marker and whitespace gives a root name. Any name it gives sits after the marker and whitespace, less one trailing '/'. |
| Parse.Indentation | dir2md.py:310-315 | The indentation is the longest prefix of leading characters: whitespace as written, or whitespace and bars in the corrected reader. |
| Parse.Accept | dir2md.py:303-321 | A line yields content exactly when it is not blank and its text after the indentation matches the tree-line pattern. |
| Parse.PopTo | dir2md.py:336-337 | The popped stack is a prefix of the stack that keeps the bottom frame. Its top is below the line's level unless only the bottom is left, and every popped frame was at least that level. |
| Parse.Push | dir2md.py:333-346 | A matched line appends one item with its content and level, and leaves the earlier items and the bottom frame alone. |
| Parse.StepKeepsInv | dir2md.py:303-346 | Each line keeps two things true: the stack is the root frame followed by exactly the still-open directories, in increasing position and level; and every item's parent is the nearest open directory before it with a smaller level. |
| Parse.Run | dir2md.py:301-346 | After any number of lines, the stack invariant and the parent rule hold. |
| Parse.ItemsAreReadings | dir2md.py:303-346 | The items are the accepted lines in order, each with its content and level. |
| Parse.ParseWith | dir2md.py:284-348 | There is no result exactly when there are no lines or the first line is not a directory root. Otherwise the root name is that line's, every item's parent obeys the parent rule, and there is one item per accepted later line. |
| Parse.ParseTreeLines | dir2md.py:284-348 | The reader as written: no result exactly for no lines or a bad root line, and parents follow the parent rule. |
| Parse.ParseTreeLinesBarAware | dir2md.py:327-330 | The reader with bars counted as indentation has the same result conditions and parent rule. |
| Parse.ParentsAreEarlierDirs | dir2md.py:335-346 | Every parent is an earlier directory at a smaller level, or the root. |
| RoundTrip.ConnectedLineParses | dir2md.py:319-325 | For a node whose name is non-empty and free of whitespace, the connector, marker, name and size suffix the writer prints match the pattern and give back the node's kind, name and size text. |
| RoundTrip.RootLineParses | dir2md.py:290-295 | The writer's root line for a directory with a whitespace-free name gives back that name. |
| RoundTrip.KeptLineAccepted | dir2md.py:310-330 | For a node whose name is non-empty and free of whitespace, a line whose prefix the reader counts as indentation is accepted with the node's content, at a level of its depth below the root's children. |
| RoundTrip.DroppedLineSkipped | dir2md.py:310-321 | The reader as written skips the line of every node below an ancestor that is not a last sibling. |
| RoundTrip.LinesRecovered | dir2md.py:303-346 | When every name in the forest is non-empty and free of whitespace, reading the pre-order lines gives one item per kept node. Each item has that node's name, kind, size text and depth, and its parent maps to that node's parent. |
| RoundTrip.BlockRecovered | dir2md.py:284-348 | For a directory root, a title and names that are non-empty and free of whitespace, and no node below the root reusing the root's name: reading the printed fenced block gives the title as the root, and the items of the kept nodes with their parents. |
| RoundTrip.BarAwareRoundTrip | dir2md.py:284-348 | Under the same conditions as `RoundTrip.BlockRecovered`, the bar-aware reader gives back every node of the printed tree in pre-order, each under its own parent. |
| RoundTrip.AsWrittenReadBack | dir2md.py:310-330 | Under the same conditions as `RoundTrip.BlockRecovered`, the reader as written keeps exactly the nodes whose ancestors below the root are all last siblings, each under its own parent. When every node is of that kind, the whole tree comes back. |
| RoundTrip.SampleLines | dir2md.py:137-138 | In the sample tree, a file inside a first-level directory that is not last prints behind a bar. |
| RoundTrip.AsWrittenDropsNestedFile | dir2md.py:310-330 | On the sample tree of three nodes, the reader as written returns two items and loses the nested file. |
| RoundTrip.BarAwareKeepsNestedFile | dir2md.py:327-330 | On the same tree, the bar-aware reader returns three items, with the nested file under its directory. |

## Left out

- Command-line handling other than the choice of ignore set (`DirTree.CommandLineConfig`), writing the output file, the rest of the viewer template, and the windowing toolkit: presentation and I/O around the core.
  - The whole of `load_directory_tree` is left out. That includes finding the fenced block with a regular expression, and the `strip().split("\n")` that turns the block into the reader's lines. The reader is modelled from its list of lines onward.
- The real filesystem. A directory's listing is given as a value, already in sorted order.
  - `Path.resolve`, symbolic links and the `path` field of a node are not modelled.
  - A listing either reads completely or fails before any entry is processed; `sorted(path.iterdir())` reads the whole listing first.
  - The `is_dir()` tests at dir2md.py:69 and 71 are taken never to fail. In the source, an error they raise for a child escapes that child's `try`. It reaches the parent's handler at dir2md.py:84, so the parent keeps no children while the counts of its earlier descendants stay in the totals. At the root, such an error escapes `generate_tree` altogether. The model does not cover this path.
- The display name of the root is a parameter (`title`). The default, the root path's last component, comes from the filesystem.
- The text of the document is modelled as its list of lines. `Document` joins them with newlines.
- SizeFormat.FormatSize: computed on exact integers, not binary floating point. Dividing by 1024 is exact in binary, so this agrees with the source for sizes below 2^53 bytes. Beyond that the source's float rounding is not modelled.
- Parse.ParseTreeLines: the result is a flat list of items with parent positions, standing for the source's linked `TreeNode` objects. The `item_to_node` map is left out.
- RoundTrip.BarAwareRoundTrip: proved for names that are non-empty and free of whitespace (`PlainName`), and for trees where no node below the root reuses the root's name.
  - With whitespace inside a name, the regular expressions can split a line differently.
  - The writer suppresses the line of any node that carries the root's name (dir2md.py:119 and 134-136). This quirk is modelled as written, not corrected.
- RoundTrip.BlockRecovered, RoundTrip.AsWrittenReadBack: the same conditions as RoundTrip.BarAwareRoundTrip. RoundTrip.LinesRecovered, RoundTrip.ConnectedLineParses and RoundTrip.KeptLineAccepted need only the names to be non-empty and free of whitespace.
- RoundTrip.RootLineParses: only for a directory root. A file root prints the page marker, which the root pattern rejects, so such a document never parses.

Three behaviours of the code are worth stating on their own:

- An empty directory prints a block holding only the root line (dir2md.py:157). The placeholder appears only when no tree is returned (dir2md.py:146-149, `Render.PlaceholderIffNoTree`): a negative depth limit, or a file root in directories-only mode.
- The directory counter includes the root (`DirTree.ExampleCounts`), and 2058 bytes print as "2.01 KB" (`SizeFormat.FormatSizeOfTwoKiBAndTen`).
- A directory whose listing fails keeps no children, because `node.children` is assigned only after the loop (dir2md.py:73-85).

## Findings

| source | as written | input that shows it | evidently intended | confidence | as-written member | corrected member |
|---|---|---|---|---|---|---|
| dir2md.py:310-330 | `lstrip()` removes only whitespace, so the bar of an ancestry prefix stops the indentation and the text after it matches no tree line; every node below a non-last ancestor is silently skipped | a root holding a directory `a` containing a file `x`, followed by a file `b`: the line of `x` is a bar, three spaces, the elbow connector, the marker and `x` | the comments say bars count as leading characters, four per level, so every printed node should come back under its parent | not executed | RoundTrip.AsWrittenDropsNestedFile | RoundTrip.BarAwareRoundTrip |

`Parse.ParseTreeLines` is the reader as written. `RoundTrip.AsWrittenReadBack` states exactly which lines it keeps. `Parse.ParseTreeLinesBarAware` is the corrected reader: it counts bars as indentation. `RoundTrip.BarAwareRoundTrip` proves that it recovers every node of a printed tree, and `RoundTrip.BarAwareKeepsNestedFile` shows it on the same sample.
