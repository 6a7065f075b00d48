/** The formatting constants the writer emits and the reader expects: the kind
    markers, the connectors before a name, and the four-character ancestry
    units. */
module Glyphs {

  /** U+1F4C1, the folder glyph. */
  const DirMarker: char := '\U{1F4C1}'
  /** U+1F4C4, the page glyph. */
  const FileMarker: char := '\U{1F4C4}'

  const Tee: char := '\U{251C}'
  const Elbow: char := '\U{2514}'
  const Dash: char := '\U{2500}'
  const Bar: char := '\U{2502}'

  function Marker(isDir: bool): char {
    if isDir then DirMarker else FileMarker
  }

  /** The connector before a name: an elbow for the last sibling, a tee otherwise. */
  function Connector(isLast: bool): string {
    [if isLast then Elbow else Tee, Dash, Dash, ' ']
  }

  /** The ancestry unit an ancestor contributes: blank below a last sibling,
      a vertical bar otherwise. */
  function Indent(isLast: bool): string {
    [if isLast then ' ' else Bar, ' ', ' ', ' ']
  }

  /** The ancestry prefix for a sequence of ancestors' last-sibling flags. */
  function IndentOf(flags: seq<bool>): (s: string)
    ensures |s| == 4 * |flags|
  {
    if flags == [] then [] else IndentOf(flags[..|flags| - 1]) + Indent(flags[|flags| - 1])
  }

  /** Character `i` of an ancestry prefix is a bar exactly at the start of
      the unit of an ancestor that is not a last sibling, and blank elsewhere. */
  lemma {:induction false} IndentAt(flags: seq<bool>, i: nat)
    requires i < |IndentOf(flags)|
    ensures IndentOf(flags)[i] == if i % 4 == 0 && !flags[i / 4] then Bar else ' '
  {
    var init := flags[..|flags| - 1];
    var m := 4 * |init|;
    if i < m {
      IndentAt(init, i);
      assert init[i / 4] == flags[i / 4];
    } else {
      assert IndentOf(flags)[i] == Indent(flags[|flags| - 1])[i - m];
      assert i / 4 == |init| && i % 4 == i - m;
    }
  }
}
