/**
 What each recogniser accepts, as the way its regular expression cuts a line into parts: the positions are those where
 the expression's groups begin and end.
 */
module LinePatterns {
  import opened Text
  import opened MarkdownLines
  import opened JoinedLines

  /** `\s*#{1,6}` then white space or the end. */
  predicate HeadingCut(line: string, i: nat, j: nat) {
    && i < j <= |line| && j - i <= 6
    && AllSpace(line[..i]) && AllEqual(line[i..j], '#') && (j == |line| || IsSpace(line[j]))
  }

  /** Three fence characters of one kind after white space. */
  predicate FenceCut(line: string, i: nat) {
    i + 3 <= |line| && AllSpace(line[..i]) && (AllEqual(line[i..i + 3], '`') || AllEqual(line[i..i + 3], '~'))
  }

  /** Nothing but white space around a run of one of two characters, of a least length. */
  predicate RunCut(line: string, i: nat, j: nat, least: nat, a: char, b: char) {
    && i + least <= j <= |line|
    && AllSpace(line[..i]) && AllSpace(line[j..]) && (AllEqual(line[i..j], a) || AllEqual(line[i..j], b))
  }

  /** `[-*+]` or `\d+[.)]` */
  predicate IsMarker(m: string) {
    || (|m| == 1 && m[0] in "-*+")
    || (|m| >= 2 && m[|m| - 1] in ".)" && forall i | 0 <= i < |m| - 1 :: IsDigit(m[i]))
  }

  /** A marker between white space. */
  predicate ItemCut(line: string, i: nat, j: nat) {
    i < j < |line| && AllSpace(line[..i]) && IsMarker(line[i..j]) && IsSpace(line[j])
  }

  /** One rule character at three places, and elsewhere only that character and white space. */
  predicate RuleCut(line: string, i: nat, j: nat, k: nat) {
    && i < j < k < |line| && line[i] in "-*_" && line[i] == line[j] == line[k]
    && forall n | 0 <= n < |line| :: line[n] == line[i] || IsSpace(line[n])
  }

  /** Where a line starts and ends once stripped. */
  lemma Ends(line: string) returns (i: nat, j: nat)
    ensures i <= j <= |line| && TrimLeft(line) == line[i..] && Strip(line) == line[i..j]
    ensures AllSpace(line[..i]) && AllSpace(line[j..])
  {
    hide IsSpace, AllSpace, TrimLeft, TrimRight;
    var l := TrimLeft(line);
    i := |line| - |l|;
    TrimRightSplit(l);
    j := i + |TrimRight(l)|;
    assert line[j..] == l[|TrimRight(l)|..] && line[i..j] == l[..|TrimRight(l)|];
  }

  lemma HeadingHasCut(line: string)
    requires Heading(line)
    ensures exists i: nat, j: nat :: HeadingCut(line, i, j)
  {
    hide IsSpace, AllSpace, TrimLeft, Strip;
    var i, _ := Ends(line);
    var n := RunLength(line[i..], '#');
    assert line[i..i + n] == line[i..][..n];
    assert HeadingCut(line, i, i + n);
  }

  lemma CutIsHeading(line: string, i: nat, j: nat)
    requires HeadingCut(line, i, j)
    ensures Heading(line)
  {
    HashIsNoSpace();
    hide IsSpace, AllSpace, TrimLeft;
    var s := line[i..];
    assert forall n | 0 <= n < j - i :: s[n] == line[i..j][n];
    assert s[0] == '#' && line[i] == s[0];
    TrimLeftIs(line, i);
    RunLengthIs(s, '#', j - i);
  }

  lemma HeadingIff(line: string)
    ensures Heading(line) <==> exists i: nat, j: nat :: HeadingCut(line, i, j)
  {
    hide Heading, HeadingCut;
    if Heading(line) {
      HeadingHasCut(line);
    }
    if i: nat, j: nat :| HeadingCut(line, i, j) {
      CutIsHeading(line, i, j);
    }
  }

  lemma HashIsNoSpace()
    ensures forall c | IsSpace(c) :: c !in "#`~=-+*_.)"
  {
  }

  lemma FenceHasCut(line: string)
    requires Fence(line)
    ensures exists i: nat :: FenceCut(line, i)
  {
    hide IsSpace, AllSpace, TrimLeft, Strip;
    var i, _ := Ends(line);
    var s := line[i..];
    assert line[i..i + 3] == s[..3];
    assert FenceCut(line, i);
  }

  lemma CutIsFence(line: string, i: nat)
    requires FenceCut(line, i)
    ensures Fence(line)
  {
    HashIsNoSpace();
    hide IsSpace, AllSpace, TrimLeft;
    var s := line[i..i + 3];
    assert s == [s[0], s[1], s[2]] && line[i] == s[0];
    TrimLeftIs(line, i);
    assert line[i..][..3] == s;
  }

  lemma FenceIff(line: string)
    ensures Fence(line) <==> exists i: nat :: FenceCut(line, i)
  {
    hide Fence, FenceCut;
    if Fence(line) {
      FenceHasCut(line);
    }
    if i: nat :| FenceCut(line, i) {
      CutIsFence(line, i);
    }
  }

  /** A stripped line that is one run of a character. */
  lemma RunIff(line: string, least: nat, a: char, b: char)
    requires least > 0 && !IsSpace(a) && !IsSpace(b)
    ensures (|Strip(line)| >= least && (AllEqual(Strip(line), a) || AllEqual(Strip(line), b)))
       <==> exists i: nat, j: nat :: RunCut(line, i, j, least, a, b)
  {
    hide IsSpace, Strip, AllSpace, TrimLeft;
    if |Strip(line)| >= least && (AllEqual(Strip(line), a) || AllEqual(Strip(line), b)) {
      var i, j := Ends(line);
      assert RunCut(line, i, j, least, a, b);
    }
    if i: nat, j: nat :| RunCut(line, i, j, least, a, b) {
      var s := line[i..j];
      assert line[i] == s[0] && line[j - 1] == s[|s| - 1];
      StripIs(line, i, j);
    }
  }

  lemma FenceCloseIff(line: string)
    ensures FenceClose(line) <==> exists i: nat, j: nat :: RunCut(line, i, j, 3, '`', '~')
  {
    HashIsNoSpace();
    hide IsSpace, Strip, RunCut;
    RunIff(line, 3, '`', '~');
  }

  lemma SetextIff(line: string)
    ensures Setext(line) <==> exists i: nat, j: nat :: RunCut(line, i, j, 1, '=', '-')
  {
    HashIsNoSpace();
    hide IsSpace, Strip, RunCut;
    RunIff(line, 1, '=', '-');
  }

  lemma MarkerIs(s: string, m: nat)
    requires 0 < m < |s| && IsMarker(s[..m]) && IsSpace(s[m])
    ensures MarkerLength(s) == m
  {
    SpaceIsPlain(s[m]);
    var t := s[..m];
    MarkerStart(t);
    hide IsSpace, IsDigit;
    assert s[0] == t[0];
    if t[0] !in "-*+" {
      assert forall n | 0 <= n < m - 1 :: s[n] == t[n];
      assert s[m - 1] == t[m - 1];
      PointIsNoDigit();
      DigitRunIs(s, m - 1);
    }
  }

  /** A marker that starts with a bullet is that bullet. */
  lemma MarkerStart(t: string)
    requires IsMarker(t)
    ensures t[0] in "-*+" ==> |t| == 1
    ensures t[0] !in "-*+" ==> |t| >= 2 && t[|t| - 1] in ".)"
  {
  }

  lemma PointIsNoDigit()
    ensures !IsDigit('.') && !IsDigit(')')
  {
  }

  lemma MarkerFound(s: string)
    requires ItemAt(s)
    ensures IsMarker(s[..MarkerLength(s)])
  {
    hide IsSpace, IsDigit;
  }

  lemma MarkerIsPlain(t: string)
    requires IsMarker(t)
    ensures !IsSpace(t[0])
  {
  }

  lemma ItemHasCut(line: string)
    requires ListItem(line)
    ensures exists i: nat, j: nat :: ItemCut(line, i, j)
  {
    hide IsSpace, IsMarker, MarkerLength, AllSpace, TrimLeft, Strip;
    var i, _ := Ends(line);
    var m := MarkerLength(line[i..]);
    MarkerFound(line[i..]);
    assert line[i..i + m] == line[i..][..m];
    assert ItemCut(line, i, i + m);
  }

  lemma CutIsItem(line: string, i: nat, j: nat)
    requires ItemCut(line, i, j)
    ensures ListItem(line)
  {
    hide IsSpace, IsMarker, MarkerLength, AllSpace, TrimLeft;
    MarkerIsPlain(line[i..j]);
    assert line[i] == line[i..j][0];
    TrimLeftIs(line, i);
    assert line[i..j] == line[i..][..j - i] && line[i..][j - i] == line[j];
    MarkerIs(line[i..], j - i);
  }

  lemma ListItemIff(line: string)
    ensures ListItem(line) <==> exists i: nat, j: nat :: ItemCut(line, i, j)
  {
    hide ListItem, ItemCut;
    if ListItem(line) {
      ItemHasCut(line);
    }
    if i: nat, j: nat :| ItemCut(line, i, j) {
      CutIsItem(line, i, j);
    }
  }

  /** Where a character occurs. */
  lemma {:induction false} Places(s: string, c: char) returns (ps: seq<nat>)
    ensures |ps| == Count(s, c)
    ensures forall a | 0 <= a < |ps| :: ps[a] < |s| && s[ps[a]] == c
    ensures forall a, b | 0 <= a < b < |ps| :: ps[a] < ps[b]
  {
    if s == "" {
      ps := [];
    } else {
      var rest := Places(s[1..], c);
      var shifted := seq(|rest|, a requires 0 <= a < |rest| => rest[a] + 1);
      ps := if s[0] == c then [0] + shifted else shifted;
    }
  }

  lemma {:induction false} CountFrom(s: string, c: char, i: nat)
    requires i < |s| && s[i] == c
    ensures Count(s, c) > Count(s[i + 1..], c)
  {
    if i > 0 {
      assert s[1..][i..] == s[i + 1..];
      CountFrom(s[1..], c, i - 1);
    }
  }

  lemma CountThree(s: string, c: char, i: nat, j: nat, k: nat)
    requires i < j < k < |s| && s[i] == s[j] == s[k] == c
    ensures Count(s, c) >= 3
  {
    hide Count;
    CountFrom(s, c, i);
    CountFrom(s[i + 1..], c, j - i - 1);
    assert s[i + 1..][j - i..] == s[j + 1..];
    CountFrom(s[j + 1..], c, k - j - 1);
  }

  lemma RuleHasCut(line: string)
    requires Thematic(line)
    ensures exists i: nat, j: nat, k: nat :: RuleCut(line, i, j, k)
  {
    hide IsSpace, Count, TrimLeft, Strip;
    var b, _ := Ends(line);
    var s := line[b..];
    var ps := Places(s, s[0]);
    forall n | 0 <= n < |line|
      ensures line[n] == s[0] || IsSpace(line[n])
    {
      if n < b {
        assert line[n] == line[..b][n];
      } else {
        assert line[n] == s[n - b];
      }
    }
    assert RuleCut(line, b + ps[0], b + ps[1], b + ps[2]);
  }

  lemma NotBefore(line: string, b: nat, i: nat)
    requires b <= |line| && i < |line| && AllSpace(line[..b]) && !IsSpace(line[i])
    ensures b <= i
  {
    hide IsSpace;
  }

  lemma CutIsRule(line: string, i: nat, j: nat, k: nat)
    requires RuleCut(line, i, j, k)
    ensures Thematic(line)
  {
    HashIsNoSpace();
    hide IsSpace, AllSpace, Count, TrimLeft, Strip;
    var c := line[i];
    var b, _ := Ends(line);
    var s := line[b..];
    NotBefore(line, b, i);
    assert !IsSpace(s[0]) by {
      assert s == TrimLeft(line);
    }
    assert s[0] == line[b] == c;
    assert s[i - b] == c && s[j - b] == c && s[k - b] == c;
    CountThree(s, c, i - b, j - b, k - b);
    forall n | 0 <= n < |s|
      ensures s[n] == c || IsSpace(s[n])
    {
      assert s[n] == line[b + n];
    }
    assert RuleAt(s);
  }

  lemma ThematicIff(line: string)
    ensures Thematic(line) <==> exists i: nat, j: nat, k: nat :: RuleCut(line, i, j, k)
  {
    hide Thematic, RuleCut;
    if Thematic(line) {
      RuleHasCut(line);
    }
    if i: nat, j: nat, k: nat :| RuleCut(line, i, j, k) {
      CutIsRule(line, i, j, k);
    }
  }

  /** A table, HTML or quote character after white space. */
  predicate BarCut(line: string, i: nat) {
    i < |line| && AllSpace(line[..i]) && line[i] in "|<>"
  }

  predicate FourSpaces(line: string) {
    |line| >= 4 && forall i | 0 <= i < 4 :: line[i] == ' '
  }

  lemma BarIff(line: string)
    ensures BarAt(Strip(line)) <==> exists i: nat :: BarCut(line, i)
  {
    BarsAreNoSpace();
    hide IsSpace, AllSpace, TrimLeft, Strip;
    var b, e := Ends(line);
    if BarAt(Strip(line)) {
      assert line[b] == line[b..e][0];
      assert BarCut(line, b);
    }
    if i: nat :| BarCut(line, i) {
      NotBefore(line, b, i);
      TrimLeftIs(line, i);
      CutShowsBar(line, i);
    }
  }

  lemma BarsAreNoSpace()
    ensures forall c | IsSpace(c) :: c !in "|<>"
  {
  }

  lemma CutShowsBar(line: string, i: nat)
    requires BarCut(line, i) && !IsSpace(line[i]) && TrimLeft(line) == line[i..]
    ensures BarAt(Strip(line))
  {
    hide IsSpace, AllSpace, TrimLeft, TrimRight;
    TrimRightKeepsHead(line[i..]);
  }

  lemma FourSpacesIff(line: string)
    ensures Indented(line) <==> FourSpaces(line)
  {
    if FourSpaces(line) {
      assert line[..4] == "    ";
    }
    if Indented(line) {
      assert line[..4] == "    ";
      assert forall i | 0 <= i < 4 :: line[i] == line[..4][i];
    }
  }

  ghost predicate OpensFence(line: string) {
    exists i: nat :: FenceCut(line, i)
  }

  ghost predicate StartsItem(line: string) {
    exists i: nat, j: nat :: ItemCut(line, i, j)
  }

  /** A heading, a table, HTML or quote line, a rule or an underline. */
  ghost predicate IsBlockLine(line: string) {
    || (exists i: nat, j: nat :: HeadingCut(line, i, j))
    || (exists i: nat :: BarCut(line, i))
    || (exists i: nat, j: nat, k: nat :: RuleCut(line, i, j, k))
    || (exists i: nat, j: nat :: RunCut(line, i, j, 1, '=', '-'))
  }

  /** The class of every line, read off its characters. */
  lemma KindExactly(line: string)
    ensures KindOf(line) == FenceOpen <==> OpensFence(line)
    ensures KindOf(line) == Verbatim <==>
            !OpensFence(line) && (AllSpace(line) || IsBlockLine(line) || (FourSpaces(line) && !StartsItem(line)))
    ensures KindOf(line) == Item <==> StartsItem(line) && !IsBlockLine(line)
    ensures KindOf(line) == Prose <==>
            !OpensFence(line) && !AllSpace(line) && !IsBlockLine(line) && !StartsItem(line) && !FourSpaces(line)
  {
    HeadingIff(line);
    FenceIff(line);
    BarIff(line);
    ThematicIff(line);
    SetextIff(line);
    ListItemIff(line);
    FourSpacesIff(line);
    ItemIsNoFence(line);
    BlankIsNoFence(line);
    hide Heading, Fence, BarAt, Thematic, Setext, ListItem, Indented, FourSpaces, AllSpace, Strip,
      HeadingCut, FenceCut, BarCut, RuleCut, RunCut, ItemCut;
  }

  lemma ItemIsNoFence(line: string)
    ensures ListItem(line) ==> !Fence(line) && !AllSpace(line)
  {
    BlankIff(line);
    MarkerIsNoFence(TrimLeft(line));
    hide TrimLeft, ItemAt, FenceAt, AllSpace;
  }

  lemma MarkerIsNoFence(s: string)
    ensures ItemAt(s) ==> !FenceAt(s) && s != ""
  {
    FenceIsNoDigit();
    hide IsDigit;
  }

  lemma FenceIsNoDigit()
    ensures !IsDigit('`') && !IsDigit('~')
  {
  }

  lemma BlankIsNoFence(line: string)
    ensures Fence(line) ==> !AllSpace(line)
  {
    BlankIff(line);
    hide TrimLeft, AllSpace;
  }
}
