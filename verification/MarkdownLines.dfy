/** The line classes of scripts/reflow_md.py: its five regular expressions as recognisers. */
module MarkdownLines {
  import opened Text

  /** First code point of every block of ten decimal digits outside ASCII (Unicode category Nd). */
  const OTHER_DECIMAL_ZEROS: set<int> := {
    0x660, 0x6f0, 0x7c0, 0x966, 0x9e6, 0xa66, 0xae6, 0xb66, 0xbe6, 0xc66, 0xce6, 0xd66, 0xde6, 0xe50, 0xed0,
    0xf20, 0x1040, 0x1090, 0x17e0, 0x1810, 0x1946, 0x19d0, 0x1a80, 0x1a90, 0x1b50, 0x1bb0, 0x1c40, 0x1c50,
    0xa620, 0xa8d0, 0xa900, 0xa9d0, 0xa9f0, 0xaa50, 0xabf0, 0xff10, 0x104a0, 0x10d30, 0x11066, 0x110f0,
    0x11136, 0x111d0, 0x112f0, 0x11450, 0x114d0, 0x11650, 0x116c0, 0x11730, 0x118e0, 0x11950, 0x11c50,
    0x11d50, 0x11da0, 0x11f50, 0x16a60, 0x16ac0, 0x16b50, 0x1d7ce, 0x1d7d8, 0x1d7e2, 0x1d7ec, 0x1d7f6,
    0x1e140, 0x1e2f0, 0x1e4f0, 0x1e950, 0x1fbf0 }

  /** `\d`. No decimal digit outside ASCII lies below U+0660 and none is white space. */
  predicate IsDigit(c: char) {
    || '0' <= c <= '9'
    || (c as int >= 0x660 && !IsSpace(c) && exists z | z in OTHER_DECIMAL_ZEROS :: z <= c as int < z + 10)
  }

  function DigitRun(s: string): (n: nat)
    ensures n <= |s|
    ensures forall i | 0 <= i < n :: IsDigit(s[i])
    ensures n < |s| ==> !IsDigit(s[n])
  {
    if s == "" || !IsDigit(s[0]) then 0 else 1 + DigitRun(s[1..])
  }

  /** Length of a bullet or ordinal marker at the start of `s`; 0 when there is none. */
  function MarkerLength(s: string): (m: nat)
    ensures m <= |s|
    ensures forall i | 0 <= i < m :: !IsSpace(s[i])
  {
    if s == "" then 0
    else if s[0] in "-*+" then 1
    else
      var n := DigitRun(s);
      if 0 < n < |s| && s[n] in ".)" then n + 1 else 0
  }

  // The tests below look at a line after its leading white space.

  predicate HeadingAt(s: string) {
    var n := RunLength(s, '#');
    1 <= n <= 6 && (n == |s| || IsSpace(s[n]))
  }

  predicate FenceAt(s: string) {
    "```" <= s || "~~~" <= s
  }

  predicate BarAt(s: string) {
    s != "" && s[0] in "|<>"
  }

  predicate ItemAt(s: string) {
    var m := MarkerLength(s);
    0 < m < |s| && IsSpace(s[m])
  }

  function Count(s: string, c: char): (n: nat)
    ensures n <= |s|
  {
    if s == "" then 0 else (if s[0] == c then 1 else 0) + Count(s[1..], c)
  }

  /** At least three of one rule character and nothing else but white space. */
  predicate RuleAt(s: string) {
    && s != "" && s[0] in "-*_"
    && (forall i | 0 <= i < |s| :: s[i] == s[0] || IsSpace(s[i]))
    && Count(s, s[0]) >= 3
  }

  predicate Heading(line: string) { HeadingAt(TrimLeft(line)) }

  predicate Fence(line: string) { FenceAt(TrimLeft(line)) }

  predicate FenceClose(line: string) {
    var s := Strip(line);
    |s| >= 3 && (AllEqual(s, '`') || AllEqual(s, '~'))
  }

  predicate ListItem(line: string) { ItemAt(TrimLeft(line)) }

  predicate Thematic(line: string) { RuleAt(TrimLeft(line)) }

  predicate Setext(line: string) {
    var s := Strip(line);
    s != "" && (AllEqual(s, '=') || AllEqual(s, '-'))
  }

  predicate Indented(line: string) {
    "    " <= line
  }

  predicate IndentedCode(line: string) {
    Indented(line) && !ListItem(line)
  }

  /** A line copied verbatim and never joined into prose. */
  predicate Passthrough(line: string) {
    || Heading(line) || Fence(line) || BarAt(Strip(line))
    || Thematic(line) || Setext(line) || IndentedCode(line)
  }

  predicate BlockBreak(line: string) {
    Strip(line) == "" || Passthrough(line)
  }

  /** How the scanner treats a line met outside a fence, in the order of its tests. */
  datatype Kind = Verbatim | FenceOpen | Item | Prose

  function KindOf(line: string): Kind {
    if Strip(line) == "" then Verbatim
    else if Fence(line) then FenceOpen
    else if Passthrough(line) then Verbatim
    else if ListItem(line) then Item
    else Prose
  }

  /** The helpers' own loop tests say the same as the class of the line. */
  lemma KindAgrees(line: string)
    ensures BlockBreak(line) <==> KindOf(line) in {Verbatim, FenceOpen}
    ensures BlockBreak(line) ==> (KindOf(line) == FenceOpen <==> Strip(line) != "" && Fence(line))
    ensures !BlockBreak(line) ==> KindOf(line) == if ListItem(line) then Item else Prose
  {
    hide Strip, Fence, Heading, Thematic, Setext, IndentedCode, ListItem;
  }
}
