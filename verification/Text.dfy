/** Strings as the Python source sees them: white space, stripping, splitting and joining. */
module Text {

  /** The code points that `str.isspace`, `str.strip`, `str.split` and `\s` all treat as white space. */
  predicate IsSpace(c: char) {
    var n := c as int;
    || 0x09 <= n <= 0x0D || 0x1C <= n <= 0x20
    || n == 0x85 || n == 0xA0 || n == 0x1680
    || 0x2000 <= n <= 0x200A || n == 0x2028 || n == 0x2029
    || n == 0x202F || n == 0x205F || n == 0x3000
  }

  predicate AllSpace(s: string) {
    forall i | 0 <= i < |s| :: IsSpace(s[i])
  }

  predicate AllEqual(s: string, c: char) {
    forall i | 0 <= i < |s| :: s[i] == c
  }

  /** `s.lstrip()`: the longest suffix that does not start with white space. */
  function TrimLeft(s: string): (t: string)
    ensures |t| <= |s| && t == s[|s| - |t|..]
    ensures AllSpace(s[..|s| - |t|])
    ensures t != "" ==> !IsSpace(t[0])
  {
    if s != "" && IsSpace(s[0]) then
      var t := TrimLeft(s[1..]);
      assert s[..|s| - |t|] == [s[0]] + s[1..][..|s| - 1 - |t|];
      t
    else s
  }

  /** `s.rstrip()`: the longest prefix that does not end with white space. */
  function TrimRight(s: string): (t: string)
    ensures |t| <= |s| && t == s[..|t|]
    ensures AllSpace(s[|t|..])
    ensures t != "" ==> !IsSpace(t[|t| - 1])
  {
    if s != "" && IsSpace(s[|s| - 1]) then
      var p := s[..|s| - 1];
      var t := TrimRight(p);
      assert s[|t|..] == p[|t|..] + [s[|s| - 1]];
      t
    else s
  }

  /** `s.strip()` */
  function Strip(s: string): (t: string)
    ensures |t| <= |s|
    ensures t != "" ==> !IsSpace(t[0]) && !IsSpace(t[|t| - 1])
    ensures t == "" <==> AllSpace(s)
  {
    StripEnds(s);
    TrimRight(TrimLeft(s))
  }

  lemma AllSpaceCons(c: char, s: string)
    ensures AllSpace([c] + s) <==> IsSpace(c) && AllSpace(s)
  {
    hide IsSpace;
    var t := [c] + s;
    assert t[0] == c;
    assert forall i | 0 <= i < |s| :: t[i + 1] == s[i];
    assert forall i | 0 < i < |t| :: t[i] == s[i - 1];
  }

  lemma NothingIsSpace()
    ensures AllSpace("")
  {
  }

  lemma {:induction false} BlankIff(s: string)
    ensures TrimLeft(s) == "" <==> AllSpace(s)
  {
    hide IsSpace, AllSpace;
    NothingIsSpace();
    if s != "" {
      AllSpaceCons(s[0], s[1..]);
      assert s == [s[0]] + s[1..];
      if IsSpace(s[0]) {
        BlankIff(s[1..]);
      }
    }
  }

  lemma {:induction false} TrimRightKeepsHead(s: string)
    requires s != "" && !IsSpace(s[0])
    ensures TrimRight(s) != "" && TrimRight(s)[0] == s[0]
  {
    hide IsSpace;
    if IsSpace(s[|s| - 1]) {
      TrimRightKeepsHead(s[..|s| - 1]);
    }
  }

  lemma StripEnds(s: string)
    ensures var l := TrimLeft(s); var t := TrimRight(l);
            && |t| <= |s| && (t == "" <==> AllSpace(s))
            && (t != "" ==> !IsSpace(t[0]) && !IsSpace(t[|t| - 1]))
  {
    hide IsSpace, AllSpace;
    var l := TrimLeft(s);
    BlankIff(s);
    if l != "" {
      TrimRightKeepsHead(l);
    }
  }

  /** White space at an end does not change what is trimmed there. */
  lemma TrimsAtEnds(c: char, s: string)
    requires IsSpace(c)
    ensures TrimLeft([c] + s) == TrimLeft(s)
    ensures TrimRight(s + [c]) == TrimRight(s)
  {
    hide IsSpace, TrimLeft, TrimRight;
    TrimsLeft(c, s);
    TrimsRight(c, s);
  }

  lemma TrimsLeft(c: char, s: string)
    requires IsSpace(c)
    ensures TrimLeft([c] + s) == TrimLeft(s)
  {
    hide IsSpace;
    var t := [c] + s;
    assert t[0] == c && t[1..] == s;
  }

  lemma TrimsRight(c: char, s: string)
    requires IsSpace(c)
    ensures TrimRight(s + [c]) == TrimRight(s)
  {
    hide IsSpace;
    var t := s + [c];
    assert t[|t| - 1] == c && t[..|t| - 1] == s;
  }

  /** `s.lstrip(c)` for one character. */
  function StripStart(s: string, c: char): (t: string)
    ensures t == "" || t[0] != c
  {
    if s != "" && s[0] == c then StripStart(s[1..], c) else s
  }

  /** `s.rstrip(c)` for one character. */
  function StripEnd(s: string, c: char): (t: string)
    ensures t <= s && (t == "" || t[|t| - 1] != c)
  {
    if s != "" && s[|s| - 1] == c then StripEnd(s[..|s| - 1], c) else s
  }

  /** `[p.strip() for p in parts if p.strip()]` */
  function NonBlank(parts: seq<string>): seq<string> {
    if parts == [] then []
    else (if Strip(parts[0]) == "" then [] else [Strip(parts[0])]) + NonBlank(parts[1..])
  }

  /** Length of the leading run of `c`. */
  function RunLength(s: string, c: char): (n: nat)
    ensures n <= |s|
    ensures forall i | 0 <= i < n :: s[i] == c
    ensures n < |s| ==> s[n] != c
  {
    if s == "" || s[0] != c then 0 else 1 + RunLength(s[1..], c)
  }

  lemma RunLengthIs(s: string, c: char, n: nat)
    requires n <= |s|
    requires forall i | 0 <= i < n :: s[i] == c
    requires n < |s| ==> s[n] != c
    ensures RunLength(s, c) == n
  {
  }

  /** A string that `strip` would not change. */
  predicate Stripped(s: string) {
    s != "" ==> !IsSpace(s[0]) && !IsSpace(s[|s| - 1])
  }

  lemma TrimLeftFixed(s: string)
    ensures (s == "" || !IsSpace(s[0])) <==> TrimLeft(s) == s
  {
    hide IsSpace, AllSpace;
    if s != "" && IsSpace(s[0]) {
      assert |TrimLeft(s)| < |s|;
    }
  }

  lemma TrimRightFixed(s: string)
    ensures (s == "" || !IsSpace(s[|s| - 1])) <==> TrimRight(s) == s
  {
    hide IsSpace, AllSpace;
    if s != "" && IsSpace(s[|s| - 1]) {
      assert |TrimRight(s)| < |s|;
    }
  }

  lemma TrimFixed(s: string)
    ensures (s == "" || !IsSpace(s[0])) <==> TrimLeft(s) == s
    ensures (s == "" || !IsSpace(s[|s| - 1])) <==> TrimRight(s) == s
    ensures Stripped(s) <==> Strip(s) == s
  {
    hide IsSpace, AllSpace, TrimLeft, TrimRight;
    TrimLeftFixed(s);
    TrimRightFixed(s);
  }

  lemma {:induction false} TrimRightExtends(a: string, w: string)
    requires AllSpace(w)
    ensures TrimRight(a + w) == TrimRight(a)
  {
    if w == "" {
      assert a + w == a;
    } else {
      assert (a + w)[|a + w| - 1] == w[|w| - 1];
      assert (a + w)[..|a + w| - 1] == a + w[..|w| - 1];
      TrimRightExtends(a, w[..|w| - 1]);
    }
  }

  lemma {:induction false} TrimLeftIs(line: string, i: nat)
    requires i <= |line| && AllSpace(line[..i]) && (i == |line| || !IsSpace(line[i]))
    ensures TrimLeft(line) == line[i..]
  {
    hide IsSpace;
    if i > 0 {
      assert IsSpace(line[..i][0]);
      assert line[1..][..i - 1] == line[..i][1..];
      TrimLeftIs(line[1..], i - 1);
    }
  }

  lemma StripIs(line: string, i: nat, j: nat)
    requires i < j <= |line| && AllSpace(line[..i]) && AllSpace(line[j..])
    requires !IsSpace(line[i]) && !IsSpace(line[j - 1])
    ensures Strip(line) == line[i..j]
  {
    hide IsSpace, AllSpace, TrimLeft, TrimRight;
    var t, w := line[i..j], line[j..];
    TrimLeftIs(line, i);
    assert line[i..] == t + w;
    assert t[|t| - 1] == line[j - 1];
    TrimFixed(t);
    TrimRightExtends(t, w);
  }

  /** Number of leading characters that are not white space. */
  function WordLength(s: string): (n: nat)
    ensures n <= |s|
    ensures forall i | 0 <= i < n :: !IsSpace(s[i])
    ensures n < |s| ==> IsSpace(s[n])
  {
    if s == "" || IsSpace(s[0]) then 0 else 1 + WordLength(s[1..])
  }

  /** `s.split()`: the maximal runs of characters that are not white space. */
  function Tokens(s: string): (ts: seq<string>)
    decreases |s|
  {
    if s == "" then []
    else if IsSpace(s[0]) then Tokens(s[1..])
    else
      var n := WordLength(s);
      [s[..n]] + Tokens(s[n..])
  }

  lemma WordLengthIs(s: string, n: nat)
    requires n <= |s|
    requires forall i | 0 <= i < n :: !IsSpace(s[i])
    requires n < |s| ==> IsSpace(s[n])
    ensures WordLength(s) == n
  {
  }

  lemma WordAppend(a: string, c: char, b: string, n: nat)
    requires IsSpace(c) && n == WordLength(a)
    ensures var s := a + [c] + b;
            WordLength(s) == n && s[..n] == a[..n] && s[n..] == a[n..] + [c] + b
  {
    var s := a + [c] + b;
    assert forall i | 0 <= i < n :: s[i] == a[i];
    WordLengthIs(s, n);
  }

  /** White space between two texts separates their tokens. */
  lemma {:induction false} TokensAppend(a: string, c: char, b: string)
    requires IsSpace(c)
    ensures Tokens(a + [c] + b) == Tokens(a) + Tokens(b)
    decreases |a|
  {
    var s := a + [c] + b;
    if a == "" {
      assert s[1..] == b;
    } else if IsSpace(a[0]) {
      assert s[1..] == a[1..] + [c] + b;
      TokensAppend(a[1..], c, b);
    } else {
      var n := WordLength(a);
      WordAppend(a, c, b, n);
      TokensAppend(a[n..], c, b);
    }
  }

  lemma {:induction false} TokensOfSpace(s: string)
    requires AllSpace(s)
    ensures Tokens(s) == []
  {
    if s != "" {
      TokensOfSpace(s[1..]);
    }
  }

  /** Stripping an end never changes the tokens. */
  lemma {:induction false} TokensTrimLeft(s: string)
    ensures Tokens(TrimLeft(s)) == Tokens(s)
  {
    if s != "" && IsSpace(s[0]) {
      TokensTrimLeft(s[1..]);
    }
  }

  lemma {:induction false} TokensTrimRight(s: string)
    ensures Tokens(TrimRight(s)) == Tokens(s)
  {
    if s != "" && IsSpace(s[|s| - 1]) {
      var p := s[..|s| - 1];
      assert s == p + [s[|s| - 1]] + "";
      TokensAppend(p, s[|s| - 1], "");
      TokensTrimRight(p);
    }
  }

  lemma TokensStrip(s: string)
    ensures Tokens(Strip(s)) == Tokens(s)
  {
    TokensTrimLeft(s);
    TokensTrimRight(TrimLeft(s));
  }

  /** `part in s` */
  predicate Contains(s: string, part: string) {
    exists i | 0 <= i <= |s| :: part <= s[i..]
  }

  /** Where `str.splitlines` ends a line. */
  predicate IsLineBreak(c: char) {
    var n := c as int;
    0x0A <= n <= 0x0D || 0x1C <= n <= 0x1E || n == 0x85 || n == 0x2028 || n == 0x2029
  }

  function LineLength(s: string): (n: nat)
    ensures n <= |s|
    ensures forall i | 0 <= i < n :: !IsLineBreak(s[i])
    ensures n < |s| ==> IsLineBreak(s[n])
  {
    if s == "" || IsLineBreak(s[0]) then 0 else 1 + LineLength(s[1..])
  }

  /** Where the second line of a text starts: a carriage return and line feed end one line. */
  function NextLine(s: string): (k: nat)
    requires LineLength(s) < |s|
    ensures LineLength(s) < k <= |s|
  {
    var n := LineLength(s);
    n + if s[n] == '\r' && n + 1 < |s| && s[n + 1] == '\n' then 2 else 1
  }

  /** `s.splitlines()`: a final break opens no further line. */
  function SplitLines(s: string): seq<string>
    decreases |s|
  {
    if s == "" then []
    else if LineLength(s) == |s| then [s]
    else [s[..LineLength(s)]] + SplitLines(s[NextLine(s)..])
  }

  /** One line break: any single break character, or a carriage return and line feed together. */
  predicate IsBreak(b: string) {
    b == "\r\n" || (|b| == 1 && IsLineBreak(b[0]))
  }

  lemma LineLengthIs(s: string, n: nat)
    requires n <= |s| && (forall i | 0 <= i < n :: !IsLineBreak(s[i])) && (n < |s| ==> IsLineBreak(s[n]))
    ensures LineLength(s) == n
  {
  }

  /** Every kind of break ends one line, and the lines after it are split on their own. */
  lemma SplitLinesAt(l: string, b: string, rest: string)
    requires (forall i | 0 <= i < |l| :: !IsLineBreak(l[i])) && IsBreak(b)
    requires !(b == "\r" && rest != "" && rest[0] == '\n')
    ensures SplitLines(l + b + rest) == [l] + SplitLines(rest)
    ensures l != "" ==> SplitLines(l) == [l]
  {
    BreaksBreak();
    hide IsLineBreak;
    var s := l + b + rest;
    LineLengthIs(l, |l|);
    assert s[|l|] == b[0] && s[..|l|] == l && forall i | 0 <= i < |l| :: s[i] == l[i];
    LineLengthIs(s, |l|);
    assert s[|l| + |b|..] == rest;
    if |b| == 1 {
      assert |s| > |l| + 1 ==> s[|l| + 1] == rest[0];
    } else {
      assert s[|l| + 1] == b[1];
    }
  }

  lemma BreaksBreak()
    ensures IsLineBreak('\r') && IsLineBreak('\n')
  {
  }

  /** `l` ends the text, holds no break, and starts it or follows a break. */
  predicate IsLastLine(s: string, l: string) {
    && 0 < |l| <= |s| && l == s[|s| - |l|..] && (forall i | 0 <= i < |l| :: !IsLineBreak(l[i]))
    && (|l| < |s| ==> IsLineBreak(s[|s| - |l| - 1]))
  }

  lemma LastLineShifts(s: string, k: nat, l: string)
    requires 0 < k <= |s| && IsLineBreak(s[k - 1]) && IsLastLine(s[k..], l)
    ensures IsLastLine(s, l)
  {
    hide IsLineBreak;
    var rest := s[k..];
    assert l == rest[|rest| - |l|..] == s[|s| - |l|..];
    if |l| < |rest| {
      assert s[|s| - |l| - 1] == rest[|rest| - |l| - 1];
    }
  }

  lemma NextLineBreaks(s: string)
    requires LineLength(s) < |s|
    ensures IsLineBreak(s[NextLine(s) - 1])
  {
    BreaksBreak();
    hide IsLineBreak;
  }

  /** The last line of a text that does not end in a break: what follows the last break. */
  lemma {:induction false} LastLineIs(s: string)
    requires s != "" && !IsLineBreak(s[|s| - 1])
    ensures SplitLines(s) != [] && IsLastLine(s, SplitLines(s)[|SplitLines(s)| - 1])
    decreases |s|
  {
    hide IsLineBreak, SplitLines, NextLine, IsLastLine;
    if LineLength(s) < |s| {
      var k := NextLine(s);
      NextLineBreaks(s);
      SplitLinesStep(s);
      LastLineIs(s[k..]);
      var ls := SplitLines(s[k..]);
      LastLineShifts(s, k, ls[|ls| - 1]);
    } else {
      OnlyLine(s);
    }
  }

  lemma SplitLinesStep(s: string)
    requires LineLength(s) < |s|
    ensures SplitLines(s) == [s[..LineLength(s)]] + SplitLines(s[NextLine(s)..])
  {
    hide LineLength, NextLine;
  }

  lemma OnlyLine(s: string)
    requires s != "" && LineLength(s) == |s|
    ensures SplitLines(s) == [s] && IsLastLine(s, s)
  {
    hide IsLineBreak;
  }

  lemma SpaceIsSpace()
    ensures IsSpace(' ') && IsSpace('\n')
  {
  }

  /** Index of the first `sep`, or the length when there is none. */
  function IndexOf(s: string, sep: char): (n: nat)
    ensures n <= |s|
    ensures forall i | 0 <= i < n :: s[i] != sep
    ensures n < |s| ==> s[n] == sep
  {
    if s == "" || s[0] == sep then 0 else 1 + IndexOf(s[1..], sep)
  }

  lemma IndexOfIs(s: string, sep: char, n: nat)
    requires n <= |s|
    requires forall i | 0 <= i < n :: s[i] != sep
    requires n < |s| ==> s[n] == sep
    ensures IndexOf(s, sep) == n
  {
  }

  /** `s.split(sep)` for a one-character separator. */
  function SplitOn(s: string, sep: char): (parts: seq<string>)
    ensures parts != []
    decreases |s|
  {
    var n := IndexOf(s, sep);
    if n == |s| then [s] else [s[..n]] + SplitOn(s[n + 1..], sep)
  }

  lemma {:induction false} SplitParts(s: string, sep: char)
    ensures forall p | p in SplitOn(s, sep) :: sep !in p
    decreases |s|
  {
    var n := IndexOf(s, sep);
    if n < |s| {
      SplitParts(s[n + 1..], sep);
    }
  }

  /** `[sep].join(parts)` */
  function JoinWith(parts: seq<string>, sep: char): string {
    if parts == [] then ""
    else if |parts| == 1 then parts[0]
    else parts[0] + [sep] + JoinWith(parts[1..], sep)
  }

  /** Tokens of a list of texts, in order. */
  function TokensOfAll(parts: seq<string>): seq<string> {
    if parts == [] then [] else Tokens(parts[0]) + TokensOfAll(parts[1..])
  }

  lemma {:induction false} TokensOfAllAppend(a: seq<string>, b: seq<string>)
    ensures TokensOfAll(a + b) == TokensOfAll(a) + TokensOfAll(b)
  {
    hide Tokens;
    if a == [] {
      assert a + b == b;
    } else {
      assert (a + b)[1..] == a[1..] + b;
      TokensOfAllAppend(a[1..], b);
    }
  }

  /** Joining with white space concatenates the tokens. */
  lemma {:induction false} TokensOfJoin(parts: seq<string>, sep: char)
    requires IsSpace(sep)
    ensures Tokens(JoinWith(parts, sep)) == TokensOfAll(parts)
  {
    hide Tokens, IsSpace;
    if parts == [] {
      EmptyHasNoTokens();
    } else if |parts| == 1 {
      assert TokensOfAll(parts[1..]) == [];
    } else {
      TokensAppend(parts[0], sep, JoinWith(parts[1..], sep));
      TokensOfJoin(parts[1..], sep);
    }
  }

  lemma EmptyHasNoTokens()
    ensures Tokens("") == []
  {
  }

  predicate IsWord(s: string) {
    s != "" && forall i | 0 <= i < |s| :: !IsSpace(s[i])
  }

  lemma {:induction false} TokensAreWords(s: string)
    ensures forall t | t in Tokens(s) :: IsWord(t)
    decreases |s|
  {
    hide IsSpace;
    if s != "" {
      if IsSpace(s[0]) {
        TokensAreWords(s[1..]);
      } else {
        TokensAreWords(s[WordLength(s)..]);
      }
    }
  }

  lemma WordIsItsToken(w: string)
    requires IsWord(w)
    ensures Tokens(w) == [w]
  {
    WordLengthIs(w, |w|);
    assert w[..|w|] == w && w[|w|..] == "";
  }

  lemma {:induction false} WordsAreTheirTokens(ws: seq<string>)
    requires forall w | w in ws :: IsWord(w)
    ensures TokensOfAll(ws) == ws
  {
    hide Tokens, IsWord;
    if ws != [] {
      WordIsItsToken(ws[0]);
      WordsAreTheirTokens(ws[1..]);
    }
  }

  lemma JoinFirst(a: string, parts: seq<string>, sep: char)
    ensures parts != [] ==> JoinWith([a] + parts, sep) == a + [sep] + JoinWith(parts, sep)
    ensures JoinWith([a], sep) == a
  {
    assert ([a] + parts)[1..] == parts;
  }

  /** Joining undoes splitting, for every text. */
  lemma {:induction false} JoinSplit(s: string, sep: char)
    ensures JoinWith(SplitOn(s, sep), sep) == s
    decreases |s|
  {
    hide JoinWith, IndexOf;
    var n := IndexOf(s, sep);
    if n < |s| {
      var rest := SplitOn(s[n + 1..], sep);
      JoinSplit(s[n + 1..], sep);
      JoinFirst(s[..n], rest, sep);
      assert s == s[..n] + [sep] + s[n + 1..];
    } else {
      JoinFirst(s, [], sep);
    }
  }

  lemma Assoc<T>(a: seq<T>, b: seq<T>, c: seq<T>)
    ensures (a + b) + c == a + (b + c)
  {
  }

  lemma Regroup<T>(a: seq<T>, b: seq<T>, c: seq<T>, d: seq<T>, e: seq<T>)
    ensures (a + b + c) + d + e == a + b + (c + d + e)
  {
  }

  lemma SplitAppendLast(a: string, sep: char, b: string)
    requires sep !in a
    ensures SplitOn(a + [sep] + b, sep) == [a] + SplitOn(b, sep)
  {
    var s := a + [sep] + b;
    IndexOfIs(s, sep, |a|);
    assert s[..|a|] == a;
    assert s[|a| + 1..] == b;
  }

  lemma SplitWhole(s: string, sep: char)
    requires sep !in s
    ensures SplitOn(s, sep) == [s]
  {
    IndexOfIs(s, sep, |s|);
  }

  /** Splitting undoes joining, for parts free of the separator. */
  lemma {:induction false} SplitJoin(parts: seq<string>, sep: char)
    requires parts != []
    requires forall p | p in parts :: sep !in p
    ensures SplitOn(JoinWith(parts, sep), sep) == parts
  {
    hide SplitOn, JoinWith;
    var p, rest := parts[0], parts[1..];
    assert parts == [p] + rest;
    JoinFirst(p, rest, sep);
    if rest == [] {
      assert parts == [p];
      SplitWhole(p, sep);
    } else {
      SplitAppendLast(p, sep, JoinWith(rest, sep));
      SplitJoin(rest, sep);
    }
  }

  lemma SplitAppendStep(head: string, tail: string, sep: char, b: string)
    requires sep !in head
    requires SplitOn(tail + [sep] + b, sep) == SplitOn(tail, sep) + SplitOn(b, sep)
    ensures SplitOn(head + [sep] + tail + [sep] + b, sep)
         == SplitOn(head + [sep] + tail, sep) + SplitOn(b, sep)
  {
    hide SplitOn;
    SplitAppendLast(head, sep, tail);
    SplitAppendLast(head, sep, tail + [sep] + b);
    Regroup(head, [sep], tail, [sep], b);
    assert [head] + (SplitOn(tail, sep) + SplitOn(b, sep)) == ([head] + SplitOn(tail, sep)) + SplitOn(b, sep);
  }

  /** Splitting a text at a separator splits its parts list there. */
  lemma {:induction false} SplitAppend(a: string, sep: char, b: string)
    ensures SplitOn(a + [sep] + b, sep) == SplitOn(a, sep) + SplitOn(b, sep)
    decreases |a|
  {
    hide SplitOn, IndexOf;
    var n := IndexOf(a, sep);
    if n == |a| {
      SplitWhole(a, sep);
      SplitAppendLast(a, sep, b);
    } else {
      SplitAppend(a[n + 1..], sep, b);
      SplitAppendStep(a[..n], a[n + 1..], sep, b);
      assert a == a[..n] + [sep] + a[n + 1..];
    }
  }

  /** A list of entries as it is written: each with white space around it, commas between. */
  function PaddedParts(entries: seq<(string, string, string)>): seq<string> {
    if entries == [] then []
    else [entries[0].0 + entries[0].1 + entries[0].2] + PaddedParts(entries[1..])
  }

  function NamedEntries(entries: seq<(string, string, string)>): seq<string> {
    if entries == [] then []
    else (if entries[0].1 == "" then [] else [entries[0].1]) + NamedEntries(entries[1..])
  }

  predicate IsPadded(e: (string, string, string)) {
    AllSpace(e.0) && AllSpace(e.2) && Stripped(e.1) && ',' !in e.0 && ',' !in e.1 && ',' !in e.2
  }

  lemma PaddingStrips(a: string, t: string, b: string)
    requires AllSpace(a) && AllSpace(b) && Stripped(t)
    ensures Strip(a + t + b) == t
  {
    hide IsSpace;
    var s := a + t + b;
    if t == "" {
      assert AllSpace(s);
    } else {
      assert s[..|a|] == a && s[|a| + |t|..] == b;
      assert s[|a|] == t[0] && s[|a| + |t| - 1] == t[|t| - 1];
      StripIs(s, |a|, |a| + |t|);
      assert s[|a|..|a| + |t|] == t;
    }
  }

  lemma {:induction false} PaddedPartsName(entries: seq<(string, string, string)>)
    requires forall e | e in entries :: IsPadded(e)
    ensures NonBlank(PaddedParts(entries)) == NamedEntries(entries)
    ensures forall p | p in PaddedParts(entries) :: ',' !in p
    ensures |PaddedParts(entries)| == |entries|
  {
    hide Strip, AllSpace, Stripped;
    if entries != [] {
      var e := entries[0];
      assert e in entries;
      PaddingStrips(e.0, e.1, e.2);
      PaddedPartsName(entries[1..]);
    }
  }

  /** Reading a written list gives its entries without the white space, in order, and drops the empty ones. */
  lemma ListReadsBack(entries: seq<(string, string, string)>)
    requires entries != [] && forall e | e in entries :: IsPadded(e)
    ensures NonBlank(SplitOn(JoinWith(PaddedParts(entries), ','), ',')) == NamedEntries(entries)
  {
    hide SplitOn, JoinWith, NonBlank, IsPadded;
    PaddedPartsName(entries);
    SplitJoin(PaddedParts(entries), ',');
  }
}
