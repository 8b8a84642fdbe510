/** String helpers with the semantics of the java.lang.String methods the
    relay relies on: ASCII lower-casing, isBlank, trim, startsWith,
    endsWith, contains, indexOf and replace. */
module Text {

  /** Lower-cases one character; only the ASCII letters A-Z change. */
  function LowerChar(c: char): (r: char)
    ensures ('A' <= c <= 'Z') ==> r as int == c as int + 32
    ensures !('A' <= c <= 'Z') ==> r == c
  {
    if 'A' <= c <= 'Z' then (c as int + 32) as char else c
  }

  function Lower(s: string): (r: string)
    ensures |r| == |s|
    ensures forall i :: 0 <= i < |s| ==> r[i] == LowerChar(s[i])
  {
    seq(|s|, i requires 0 <= i < |s| => LowerChar(s[i]))
  }

  lemma LowerAppend(a: string, b: string)
    ensures Lower(a + b) == Lower(a) + Lower(b)
  {
  }

  /** Character.isWhitespace: the ASCII controls 9-13 and 28-31, the space
      and the Unicode space, line and paragraph separators other than the
      non-breaking ones. */
  predicate IsWhitespace(c: char) {
    var n := c as int;
    || n == 0x20 || 0x09 <= n <= 0x0D || 0x1C <= n <= 0x1F
    || n == 0x1680 || 0x2000 <= n <= 0x2006 || 0x2008 <= n <= 0x200A
    || n == 0x2028 || n == 0x2029 || n == 0x205F || n == 0x3000
  }

  /** String.isBlank: empty or whitespace only. */
  predicate IsBlank(s: string) {
    forall i :: 0 <= i < |s| ==> IsWhitespace(s[i])
  }

  /** String.trim strips every leading and trailing character whose code
      is at most U+0020. */
  predicate Trimmable(c: char) {
    c as int <= 0x20
  }

  function TrimStart(s: string): (r: string)
    ensures |r| <= |s| && r == s[|s| - |r|..]
    ensures r == [] || !Trimmable(r[0])
    ensures forall i :: 0 <= i < |s| - |r| ==> Trimmable(s[i])
  {
    if |s| > 0 && Trimmable(s[0]) then TrimStart(s[1..]) else s
  }

  function TrimEnd(s: string): (r: string)
    ensures |r| <= |s| && r == s[..|r|]
    ensures r == [] || !Trimmable(r[|r| - 1])
    ensures forall i :: |r| <= i < |s| ==> Trimmable(s[i])
  {
    if |s| > 0 && Trimmable(s[|s| - 1]) then TrimEnd(s[..|s| - 1]) else s
  }

  function Trim(s: string): (r: string)
    ensures |r| <= |s|
    ensures r == [] || (!Trimmable(r[0]) && !Trimmable(r[|r| - 1]))
  {
    TrimEnd(TrimStart(s))
  }

  predicate StartsWith(s: string, p: string) {
    |p| <= |s| && s[..|p|] == p
  }

  predicate EndsWith(s: string, p: string) {
    |p| <= |s| && s[|s| - |p|..] == p
  }

  /** A message built as a header, some lines and a body splits back into
      its three parts. */
  lemma HeaderLinesBody(header: string, lines: string, body: string)
    ensures StartsWith(header + lines + body, header)
    ensures StartsWith(header + lines + body, header + lines)
    ensures EndsWith(header + lines + body, body)
    ensures (header + lines + body)[|header + lines|..] == body
  {
    assert (header + lines + body)[..|header|] == header;
  }

  /** `p` occurs in `s` starting at index `i`. */
  predicate OccursAt(s: string, p: string, i: int) {
    0 <= i && i + |p| <= |s| && s[i..i + |p|] == p
  }

  /** String.contains. */
  predicate Contains(s: string, p: string) {
    exists i :: 0 <= i <= |s| - |p| && OccursAt(s, p, i)
  }

  /** String.indexOf for a character known to occur. */
  function IndexOf(s: string, c: char): (r: nat)
    requires c in s
    ensures r < |s| && s[r] == c
    ensures forall j :: 0 <= j < r ==> s[j] != c
  {
    if s[0] == c then 0 else 1 + IndexOf(s[1..], c)
  }

  /** String.replace(target, replacement): every non-overlapping occurrence
      of a non-empty target, scanning left to right, is replaced once; the
      replacement text is never rescanned. */
  function Replace(s: string, target: string, replacement: string): (r: string)
    requires |target| > 0
    ensures !Contains(s, target) ==> r == s
    decreases |s|
  {
    if |s| < |target| then s
    else if s[..|target|] == target then
      assert OccursAt(s, target, 0);
      replacement + Replace(s[|target|..], target, replacement)
    else
      assert !Contains(s, target) ==> !Contains(s[1..], target) by {
        if Contains(s[1..], target) {
          var i :| 0 <= i <= |s[1..]| - |target| && OccursAt(s[1..], target, i);
          assert OccursAt(s, target, i + 1);
        }
      }
      [s[0]] + Replace(s[1..], target, replacement)
  }
}
