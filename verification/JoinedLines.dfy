/** How the class of a line reacts to stripping and to joining: what reflow's output looks like when read again. */
module JoinedLines {
  import opened Text
  import opened MarkdownLines

  lemma DigitRunIs(s: string, n: nat)
    requires n <= |s|
    requires forall i | 0 <= i < n :: IsDigit(s[i])
    requires n < |s| ==> !IsDigit(s[n])
    ensures DigitRun(s) == n
  {
    hide IsDigit;
  }

  lemma SpaceIsPlain(c: char)
    requires IsSpace(c)
    ensures !IsDigit(c) && c !in "#`~|<>-*+=_.)"
  {
  }

  /** The block markers at the start of a text cannot see past a space that follows it. */
  lemma MarkerExtends(s: string, x: string)
    requires s != "" && !IsSpace(s[0])
    requires x != "" && IsSpace(x[0])
    ensures MarkerLength(s + x) == MarkerLength(s)
  {
    SpaceIsPlain(x[0]);
    hide IsDigit, IsSpace;
    var n := DigitRun(s);
    assert (s + x)[0] == s[0];
    assert forall i | 0 <= i < n :: (s + x)[i] == s[i];
    DigitRunIs(s + x, n);
  }

  lemma HeadingExtends(s: string, x: string)
    requires x != "" && IsSpace(x[0])
    ensures HeadingAt(s + x) <==> HeadingAt(s)
  {
    SpaceIsPlain(x[0]);
    hide IsSpace;
    var n := RunLength(s, '#');
    assert forall i | 0 <= i < n :: (s + x)[i] == s[i];
    RunLengthIs(s + x, '#', n);
  }

  lemma FenceExtends(s: string, x: string)
    requires s != "" && x != "" && IsSpace(x[0])
    ensures FenceAt(s + x) <==> FenceAt(s)
    ensures BarAt(s + x) <==> BarAt(s)
  {
    SpaceIsPlain(x[0]);
    hide IsSpace;
    var t := s + x;
    assert t[0] == s[0];
    assert t[|s|] == x[0];
    if |s| >= 3 {
      assert t[..3] == s[..3];
      assert FenceAt(t) <==> t[..3] == "```" || t[..3] == "~~~";
    }
  }

  lemma {:induction false} TrimLeftExtends(a: string, x: string)
    requires TrimLeft(a) != ""
    ensures TrimLeft(a + x) == TrimLeft(a) + x
  {
    hide IsSpace;
    assert (a + x)[0] == a[0];
    if IsSpace(a[0]) {
      assert (a + x)[1..] == a[1..] + x;
      TrimLeftExtends(a[1..], x);
    }
  }

  lemma StripExtends(a: string, w: string)
    requires TrimLeft(a) != "" && AllSpace(w)
    ensures Strip(a + w) == Strip(a)
  {
    hide IsSpace;
    TrimLeftExtends(a, w);
    TrimRightExtends(TrimLeft(a), w);
  }

  /** The line-level form: only whether a marker is followed by a space can change. */
  lemma LineExtends(a: string, x: string)
    requires TrimLeft(a) != "" && x != "" && IsSpace(x[0])
    ensures Heading(a + x) <==> Heading(a)
    ensures Fence(a + x) <==> Fence(a)
    ensures BarAt(TrimLeft(a + x)) <==> BarAt(TrimLeft(a))
    ensures ListItem(a + x) <==> ListItem(a + " ")
    ensures ListItem(a) ==> ListItem(a + x)
  {
    var s := TrimLeft(a);
    TrimLeftExtends(a, x);
    TrimLeftExtends(a, " ");
    HeadingExtends(s, x);
    FenceExtends(s, x);
    ItemExtends(s, x);
  }

  lemma ItemExtends(s: string, x: string)
    requires s != "" && !IsSpace(s[0]) && x != "" && IsSpace(x[0])
    ensures ItemAt(s + x) <==> ItemAt(s + " ")
    ensures ItemAt(s) ==> ItemAt(s + x)
    ensures ItemAt(s + " ") && !ItemAt(s) ==> MarkerLength(s) == |s|
  {
    MarkerExtends(s, x);
    MarkerExtends(s, " ");
    hide MarkerLength, IsSpace;
    var m := MarkerLength(s);
    if m == |s| {
      assert (s + x)[m] == x[0] && (s + " ")[m] == ' ';
    } else {
      assert (s + x)[m] == s[m] == (s + " ")[m];
    }
  }

  /** A list marker with nothing after it, not even the space that would make it a list item. */
  predicate BareMarker(a: string) {
    !ListItem(a) && ListItem(a + " ")
  }

  /** What every joined line is, while it grows and when it is emitted. */
  ghost predicate Joined(a: string) {
    && a != "" && !IsSpace(a[|a| - 1])
    && !Heading(a) && !Fence(a) && !BarAt(TrimLeft(a)) && !Setext(a)
    && (!IsSpace(a[0]) || ListItem(a + " "))
  }

  lemma NotBlank(a: string)
    requires a != "" && !IsSpace(a[|a| - 1])
    ensures TrimLeft(a) != "" && TrimRight(a) == a && Strip(a) == TrimLeft(a)
  {
    hide IsSpace, TrimLeft, TrimRight;
    BlankIff(a);
    TrimFixed(a);
    TrimFixed(TrimLeft(a));
    assert TrimLeft(a) == a[|a| - |TrimLeft(a)|..];
  }

  lemma SetextByStrip(a: string, b: string)
    requires Strip(a) == Strip(b)
    ensures Setext(a) <==> Setext(b)
  {
    hide Strip;
  }

  lemma NoSetext(a: string, i: nat)
    requires i < |Strip(a)| && Strip(a)[i] == ' '
    ensures !Setext(a)
  {
    hide Strip;
  }

  lemma DashesAreSetext(a: string)
    requires !Setext(a)
    ensures Strip(a) != "---"
  {
    hide Strip;
    assert AllEqual("---", '-');
  }

  lemma Parts(line: string)
    requires KindOf(line) in {Item, Prose}
    ensures !AllSpace(line)
    ensures !Heading(line) && !Fence(line) && !BarAt(TrimLeft(line)) && !Setext(line)
    ensures KindOf(line) == Item <==> ListItem(line)
  {
    StripEnds(line);
    hide Heading, Fence, Setext, Thematic, IndentedCode, ListItem, IsSpace;
  }

  lemma TrimRightSplit(line: string)
    ensures var t := TrimRight(line); var w := line[|t|..];
            && line == t + w && AllSpace(w) && (w != "" ==> IsSpace(w[0]))
            && (!AllSpace(line) ==> t != "" && !IsSpace(t[|t| - 1]))
  {
    var t := TrimRight(line);
    if t == "" {
      assert line[|t|..] == line;
    }
  }

  /** A list item's own line opens a joined line. */
  lemma ItemOpens(line: string)
    requires KindOf(line) == Item
    ensures Joined(TrimRight(line)) && ListItem(TrimRight(line) + " ")
  {
    hide KindOf, Heading, Fence, BarAt, ListItem, Setext, Strip, TrimLeft, TrimRight, IsSpace, AllSpace;
    var t := TrimRight(line);
    var w := line[|t|..];
    TrimRightSplit(line);
    Parts(line);
    NotBlank(t);
    SpaceIsSpace();
    LineExtends(t, " ");
    if w != "" {
      LineExtends(t, w);
      StripExtends(t, w);
      SetextByStrip(t, line);
    } else {
      assert line == t;
    }
  }

  lemma StripSplit(line: string)
    ensures var l, s := TrimLeft(line), Strip(line);
            && s <= l && AllSpace(l[|s|..]) && (|s| < |l| ==> IsSpace(l[|s|]))
  {
    TrimRightSplit(TrimLeft(line));
  }

  lemma StartsAlike(s: string, w: string)
    requires s != "" && (w != "" ==> IsSpace(w[0]))
    ensures HeadingAt(s + w) <==> HeadingAt(s)
    ensures FenceAt(s + w) <==> FenceAt(s)
    ensures BarAt(s + w) <==> BarAt(s)
  {
    hide HeadingAt, FenceAt, BarAt, IsSpace;
    if w != "" {
      HeadingExtends(s, w);
      FenceExtends(s, w);
    } else {
      assert s + w == s;
    }
  }

  /** A prose line opens a joined line that starts flush left. */
  lemma ProseOpens(line: string)
    requires KindOf(line) == Prose
    ensures Joined(Strip(line)) && !IsSpace(Strip(line)[0])
  {
    hide KindOf, HeadingAt, FenceAt, BarAt, ListItem, Setext, Strip, TrimLeft, TrimRight, IsSpace, AllSpace;
    var l, s := TrimLeft(line), Strip(line);
    Parts(line);
    StripSplit(line);
    assert l == s + l[|s|..];
    StartsAlike(s, l[|s|..]);
    TrimFixed(s);
    SetextByStrip(s, line);
  }

  /** Joining one more prose line keeps the shape, and leaves no marker bare. */
  lemma ProseExtends(a: string, line: string)
    requires Joined(a) && KindOf(line) == Prose
    ensures var b := a + " " + Strip(line);
            && Joined(b) && !BareMarker(b) && b[0] == a[0]
            && (ListItem(a + " ") ==> ListItem(b + " "))
  {
    hide KindOf, Heading, Fence, BarAt, ListItem, Setext, Strip, TrimLeft, TrimRight, IsSpace;
    ProseOpens(line);
    SpaceIsSpace();
    JoinShape(a, Strip(line));
  }

  /** Joining with one space changes no test but the list item's, which then sees the space. */
  lemma JoinTests(a: string, s: string)
    requires TrimLeft(a) != "" && IsSpace(' ')
    ensures var b := a + " " + s;
            && (Heading(b) <==> Heading(a)) && (Fence(b) <==> Fence(a))
            && (BarAt(TrimLeft(b)) <==> BarAt(TrimLeft(a)))
            && (ListItem(b) <==> ListItem(a + " ")) && (ListItem(b + " ") <==> ListItem(a + " "))
  {
    hide Heading, Fence, BarAt, ListItem, TrimLeft, IsSpace;
    var x := " " + s;
    assert a + " " + s == a + x;
    assert a + " " + s + " " == a + (x + " ");
    LineExtends(a, x);
    LineExtends(a, x + " ");
  }

  /** A line with a space inside is no setext rule. */
  lemma JoinIsNoSetext(a: string, s: string)
    requires TrimLeft(a) != "" && s != "" && !IsSpace(s[|s| - 1])
    ensures !Setext(a + " " + s)
  {
    hide Setext, Strip, TrimLeft, TrimRight, IsSpace;
    var x := " " + s;
    var b := a + x;
    assert a + " " + s == b;
    assert b[|b| - 1] == s[|s| - 1];
    NotBlank(b);
    TrimLeftExtends(a, x);
    assert (TrimLeft(a) + x)[|TrimLeft(a)|] == ' ';
    NoSetext(b, |TrimLeft(a)|);
  }

  lemma JoinShape(a: string, s: string)
    requires Joined(a) && s != "" && !IsSpace(s[|s| - 1]) && IsSpace(' ')
    ensures var b := a + " " + s;
            && Joined(b) && !BareMarker(b) && b[0] == a[0]
            && (ListItem(a + " ") ==> ListItem(b + " "))
  {
    hide Heading, Fence, BarAt, ListItem, Setext, Strip, TrimLeft, TrimRight, IsSpace;
    var b := a + " " + s;
    NotBlank(a);
    JoinTests(a, s);
    JoinIsNoSetext(a, s);
    assert b[0] == a[0] && b[|b| - 1] == s[|s| - 1];
  }

  /** How a joined line is classified when it is read back. */
  lemma JoinedKind(a: string)
    requires Joined(a)
    ensures KindOf(a) in {Verbatim, Item, Prose}
    ensures Strip(a) != "---" && TrimRight(a) == a
    ensures Strip(a) == a <==> Stripped(a)
    ensures !Stripped(a) ==> ListItem(a + " ")
    ensures KindOf(a) == Item ==> ListItem(a)
    ensures KindOf(a) == Prose ==> !ListItem(a) && !Indented(a)
    ensures BareMarker(a) ==> KindOf(a) == if Indented(a) then Verbatim else Prose
  {
    hide Heading, Fence, BarAt, ListItem, Thematic, Setext, Strip, TrimLeft, IsSpace;
    NotBlank(a);
    TrimFixed(a);
    DashesAreSetext(a);
    if BareMarker(a) {
      BareIsNoRule(a);
    }
  }

  lemma BareIsNoRule(a: string)
    requires BareMarker(a) && TrimLeft(a) != ""
    ensures !Thematic(a)
  {
    hide MarkerLength, RuleAt, ItemAt, IsSpace;
    var s := TrimLeft(a);
    SpaceIsSpace();
    TrimLeftExtends(a, " ");
    ItemExtends(s, " ");
    AllMarkerIsNoRule(s);
  }

  lemma AllMarkerIsNoRule(s: string)
    requires MarkerLength(s) == |s|
    ensures !RuleAt(s)
  {
    hide IsDigit;
    if s != "" && s[0] == '_' {
      UnderscoreIsNoDigit();
    }
  }

  lemma UnderscoreIsNoDigit()
    ensures !IsDigit('_')
  {
  }
}
