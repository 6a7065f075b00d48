/** Small string vocabulary shared by the writer and the reader: Python's notion
    of whitespace, `str.lstrip`/`str.strip`, and decimal rendering of naturals. */
module Text {

  datatype Option<T> = None | Some(value: T)

  /** The characters for which Python's `str.isspace()` holds; `str.strip`,
      `str.lstrip` remove exactly these, and the regex class `\s` matches them. */
  predicate IsSpace(c: char) {
    || ('\t' <= c <= '\r')
    || ('\U{1C}' <= c <= '\U{1F}')
    || c == ' '
    || c == '\U{85}'
    || c == '\U{A0}'
    || c == '\U{1680}'
    || ('\U{2000}' <= c <= '\U{200A}')
    || c == '\U{2028}'
    || c == '\U{2029}'
    || c == '\U{202F}'
    || c == '\U{205F}'
    || c == '\U{3000}'
  }

  predicate AllSpace(s: string) {
    forall i :: 0 <= i < |s| ==> IsSpace(s[i])
  }

  predicate NoSpace(s: string) {
    forall i :: 0 <= i < |s| ==> !IsSpace(s[i])
  }

  /** Length of the longest all-whitespace prefix of `s`. */
  function LeadingSpaces(s: string): (k: nat)
    ensures k <= |s|
    ensures AllSpace(s[..k])
    ensures k < |s| ==> !IsSpace(s[k])
  {
    if s == [] || !IsSpace(s[0]) then 0
    else
      var k := 1 + LeadingSpaces(s[1..]);
      assert s[..k] == [s[0]] + s[1..][..k - 1];
      k
  }

  /** `LeadingSpaces` is the one length with a whitespace prefix and a
      non-space after it. */
  lemma {:induction false} LeadingSpacesExact(s: string, k: nat)
    requires k <= |s| && AllSpace(s[..k]) && (k < |s| ==> !IsSpace(s[k]))
    ensures LeadingSpaces(s) == k
  {
    if k > 0 {
      assert IsSpace(s[..k][0]);
      assert s[1..][..k - 1] == s[..k][1..];
      LeadingSpacesExact(s[1..], k - 1);
    }
  }

  /** Length of the longest all-whitespace suffix of `s`. */
  function TrailingSpaces(s: string): (k: nat)
    ensures k <= |s|
    ensures AllSpace(s[|s| - k..])
    ensures k < |s| ==> !IsSpace(s[|s| - 1 - k])
  {
    if s == [] || !IsSpace(s[|s| - 1]) then 0
    else
      var init := s[..|s| - 1];
      var k := 1 + TrailingSpaces(init);
      assert s[|s| - k..] == init[|init| - (k - 1)..] + [s[|s| - 1]];
      k
  }

  /** Python's `s.lstrip()`. */
  function LStrip(s: string): (t: string)
    ensures |t| <= |s| && s == s[..|s| - |t|] + t
    ensures AllSpace(s[..|s| - |t|])
    ensures t == [] || !IsSpace(t[0])
  {
    s[LeadingSpaces(s)..]
  }

  /** Python's `s.rstrip()`. */
  function RStrip(s: string): (t: string)
    ensures |t| <= |s| && s == t + s[|t|..]
    ensures AllSpace(s[|t|..])
    ensures t == [] || !IsSpace(t[|t| - 1])
  {
    s[..|s| - TrailingSpaces(s)]
  }

  /** Python's `s.strip()`. */
  function Strip(s: string): (t: string)
    ensures t == [] || (!IsSpace(t[0]) && !IsSpace(t[|t| - 1]))
    ensures t == [] <==> AllSpace(s)
    ensures (s == [] || (!IsSpace(s[0]) && !IsSpace(s[|s| - 1]))) ==> t == s
    ensures t == [] || (LeadingSpaces(s) + |t| <= |s| && t == s[LeadingSpaces(s)..LeadingSpaces(s) + |t|]
                        && AllSpace(s[LeadingSpaces(s) + |t|..]))
  {
    var L := LeadingSpaces(s);
    var u := s[L..];
    var t := RStrip(u);
    StripParts(s, L, u, t);
    t
  }

  /** The facts about `strip` from those about its two halves: `u` is `s`
      after its leading whitespace run of length `L`, and `t` is `u` without
      its trailing whitespace. */
  lemma StripParts(s: string, L: nat, u: string, t: string)
    requires L <= |s| && AllSpace(s[..L]) && (L < |s| ==> !IsSpace(s[L])) && u == s[L..]
    requires |t| <= |u| && u == t + u[|t|..] && AllSpace(u[|t|..]) && (t == [] || !IsSpace(t[|t| - 1]))
    ensures t == [] || (!IsSpace(t[0]) && !IsSpace(t[|t| - 1]))
    ensures t == [] <==> AllSpace(s)
    ensures (s == [] || (!IsSpace(s[0]) && !IsSpace(s[|s| - 1]))) ==> t == s
    ensures t == [] || (L + |t| <= |s| && t == s[L..L + |t|] && AllSpace(s[L + |t|..]))
  {
    assert s == s[..L] + u;
    if t == [] {
      AllSpaceConcat(s[..L], u);
    } else {
      assert t[0] == s[L];
      SliceOfSuffix(s, L, u, t);
    }
  }

  /** A prefix `t` of the suffix `u == s[L..]`, followed by whitespace only, is
      the slice of `s` at `L`, followed by whitespace only. */
  lemma SliceOfSuffix(s: string, L: nat, u: string, t: string)
    requires L <= |s| && u == s[L..] && |t| <= |u| && u == t + u[|t|..] && AllSpace(u[|t|..])
    ensures L + |t| <= |s| && t == s[L..L + |t|] && AllSpace(s[L + |t|..])
  {
    assert s[L + |t|..] == u[|t|..];
  }

  lemma AllSpaceConcat(a: string, b: string)
    requires AllSpace(a) && AllSpace(b)
    ensures AllSpace(a + b)
  {
  }

  /** `s` is a blank line in Python's sense: `not s.strip()`. */
  predicate IsBlank(s: string) {
    Strip(s) == []
  }

  /** The concatenation of `lines`, each followed by a newline (how the
      document's pieces are joined with `"".join`). */
  function Unlines(lines: seq<string>): (doc: string)
    ensures |doc| >= |lines|
  {
    if lines == [] then [] else lines[0] + "\n" + Unlines(lines[1..])
  }

  predicate IsDigit(c: char) {
    '0' <= c <= '9'
  }

  function DigitOf(c: char): (d: nat)
    requires IsDigit(c)
    ensures d < 10
  {
    (c as int) - ('0' as int)
  }

  function DigitChar(d: nat): (c: char)
    requires d < 10
    ensures IsDigit(c) && DigitOf(c) == d
  {
    ['0', '1', '2', '3', '4', '5', '6', '7', '8', '9'][d]
  }

  /** Decimal text of `n`, as Python's `f"{n}"` prints a non-negative int. */
  function NatText(n: nat): (s: string)
    ensures |s| >= 1
    ensures forall i :: 0 <= i < |s| ==> IsDigit(s[i])
    ensures s[0] == '0' ==> n == 0
    decreases n
  {
    if n < 10 then [DigitChar(n)] else NatText(n / 10) + [DigitChar(n % 10)]
  }

  /** The value of a string of decimal digits. */
  function DigitsValue(s: string): nat
    requires forall i :: 0 <= i < |s| ==> IsDigit(s[i])
  {
    if s == [] then 0 else 10 * DigitsValue(s[..|s| - 1]) + DigitOf(s[|s| - 1])
  }

  /** Reading the decimal text back yields the number. */
  lemma {:induction false} NatTextValue(n: nat)
    ensures DigitsValue(NatText(n)) == n
    decreases n
  {
    if n >= 10 {
      NatTextValue(n / 10);
      var s := NatText(n);
      assert s[..|s| - 1] == NatText(n / 10);
    }
  }
}
