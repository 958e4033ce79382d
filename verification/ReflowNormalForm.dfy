/**
 When running reflow again changes nothing. A text that one run leaves alone is characterised by a property of its
 lines; one run reaches such a text exactly when it emits no loose bare marker; two runs always do.
 */
module ReflowNormalForm {
  import opened Text
  import opened MarkdownLines
  import opened JoinedLines
  import opened Reflow
  import opened ReflowProofs

  /**
   Nothing is left to join or strip: outside fences every list item has no trailing space, every prose line is
   stripped, and no prose line follows prose or a list item.
   */
  predicate Settled(lines: seq<string>, fenced: bool, afterProse: bool) {
    lines == [] ||
    if fenced then Settled(lines[1..], !FenceClose(lines[0]), false)
    else match KindOf(lines[0]) {
      case Verbatim => Settled(lines[1..], false, false)
      case FenceOpen => Settled(lines[1..], true, false)
      case Item => TrimRight(lines[0]) == lines[0] && Settled(lines[1..], false, true)
      case Prose => !afterProse && Strip(lines[0]) == lines[0] && Settled(lines[1..], false, true)
    }
  }

  /** A size that every join and every strip makes smaller. */
  function Weight(lines: seq<string>): nat {
    if lines == [] then 0 else |lines[0]| + 2 + Weight(lines[1..])
  }

  function StateWeight(st: State): nat {
    if st.Open? then |st.run| + 2 else 0
  }

  lemma {:induction false} WeightAppend(a: seq<string>, b: seq<string>)
    ensures Weight(a + b) == Weight(a) + Weight(b)
  {
    if a == [] {
      assert a + b == b;
    } else {
      assert (a + b)[1..] == a[1..] + b;
      WeightAppend(a[1..], b);
    }
  }

  lemma StripShorter(line: string)
    ensures |Strip(line)| <= |line| && (|Strip(line)| == |line| ==> Strip(line) == line)
    ensures |TrimRight(line)| <= |line| && (|TrimRight(line)| == |line| ==> TrimRight(line) == line)
  {
    var l := TrimLeft(line);
    assert TrimRight(l) == l[..|TrimRight(l)|];
    assert l == line[|line| - |l|..];
  }

  /** Whether one step leaves its line alone. */
  predicate Keeps(st: State, line: string) {
    st.Fenced? || match KindOf(line) {
      case Verbatim => true
      case FenceOpen => true
      case Item => TrimRight(line) == line
      case Prose => !st.Open? && Strip(line) == line
    }
  }

  lemma StepWeight(st: State, line: string)
    ensures var w := Weight(Emitted(st, line)) + StateWeight(Next(st, line));
            && w <= StateWeight(st) + |line| + 2
            && (!Keeps(st, line) ==> w < StateWeight(st) + |line| + 2)
  {
    StripShorter(line);
    hide KindOf, FenceClose, Strip, TrimRight;
    WeightAppend(Flush(st), [line]);
  }

  lemma {:induction false} RunWeight(lines: seq<string>, st: State)
    ensures Weight(Run(lines, st)) <= StateWeight(st) + Weight(lines)
    ensures !Settled(lines, st.Fenced?, st.Open?) ==> Weight(Run(lines, st)) < StateWeight(st) + Weight(lines)
  {
    hide KindOf, FenceClose, Strip, TrimRight;
    if lines != [] {
      var n := Next(st, lines[0]);
      StepWeight(st, lines[0]);
      RunWeight(lines[1..], n);
      WeightAppend(Emitted(st, lines[0]), Run(lines[1..], n));
    }
  }

  lemma SettledStep(line: string, rest: seq<string>, st: State)
    requires Settled([line] + rest, st.Fenced?, st.Open?)
    ensures var n := Next(st, line); Settled(rest, n.Fenced?, n.Open?) && Emitted(st, line) + Flush(n) == Flush(st) + [line]
  {
    hide KindOf, FenceClose, Strip, TrimRight;
    assert ([line] + rest)[1..] == rest;
  }

  lemma {:induction false} SettledRunsUnchanged(lines: seq<string>, st: State)
    requires Settled(lines, st.Fenced?, st.Open?)
    ensures Run(lines, st) == Flush(st) + lines
  {
    hide Settled, Emitted, Next, Flush;
    if lines != [] {
      var line, rest := lines[0], lines[1..];
      var n := Next(st, line);
      assert lines == [line] + rest;
      SettledStep(line, rest, st);
      SettledRunsUnchanged(rest, n);
      Assoc(Emitted(st, line), Flush(n), rest);
      Assoc(Flush(st), [line], rest);
    }
  }

  /** The lines that one run leaves alone. */
  lemma FixedIffSettled(lines: seq<string>)
    ensures ReflowLines(lines) == lines <==> Settled(lines[FrontMatterEnd(lines)..], false, false)
  {
    hide FrontMatterEnd, Run, Settled;
    var n := FrontMatterEnd(lines);
    var body := lines[n..];
    assert lines == lines[..n] + body;
    if Settled(body, false, false) {
      SettledRunsUnchanged(body, Closed);
    } else {
      RunWeight(body, Closed);
      assert ReflowLines(lines)[n..] == Run(body, Closed);
    }
  }

  // ---- When one run is enough ----

  /** A joined line may end as a bare marker only where reading it again as prose changes nothing. */
  predicate ClosesWell(run: string, afterProse: bool) {
    BareMarker(run) ==> Indented(run) || (!afterProse && Stripped(run))
  }

  /**
   No list item is left as a bare marker (no text on its own line, none on the lines joined to it) while it is
   indented by less than code or directly follows other prose. `afterProse` says whether the last finished line is
   prose when read back.
   */
  predicate NoLooseMarker(lines: seq<string>, st: State, afterProse: bool) {
    if lines == [] then st.Open? ==> ClosesWell(st.run, afterProse)
    else
      var line := lines[0];
      if !st.Fenced? && KindOf(line) == Prose then NoLooseMarker(lines[1..], Next(st, line), afterProse)
      else
        && (st.Open? ==> ClosesWell(st.run, afterProse))
        && NoLooseMarker(lines[1..], Next(st, line),
                         !st.Fenced? && KindOf(line) == Item && st.Open? && KindOf(st.run) != Verbatim)
  }

  /** What the scanner maintains: an open line has the joined shape, and only list items follow prose directly. */
  ghost predicate Inv(st: State, afterProse: bool) {
    && (st.Open? ==> Joined(st.run))
    && (afterProse ==> st.Open? && ListItem(st.run + " "))
  }

  lemma InvNext(st: State, line: string, afterProse: bool)
    requires Inv(st, afterProse)
    ensures !st.Fenced? && KindOf(line) == Prose ==> Inv(Next(st, line), afterProse)
    ensures st.Fenced? || KindOf(line) != Prose ==> Inv(Next(st, line), false)
    ensures !st.Fenced? && KindOf(line) == Item ==> Inv(Next(st, line), true)
  {
    hide KindOf, FenceClose, Strip, TrimRight, Joined, ListItem;
    if !st.Fenced? && KindOf(line) == Item {
      ItemOpens(line);
    } else if !st.Fenced? && KindOf(line) == Prose {
      ProseOpens(line);
      if st.Open? {
        ProseExtends(st.run, line);
      }
    }
  }

  /** Reading an emitted line back, when the lines after it are settled: it must close well. */
  lemma SettledClose(run: string, rest: seq<string>, afterProse: bool)
    requires Joined(run) && (afterProse ==> ListItem(run + " "))
    ensures Settled([run] + rest, false, afterProse)
       <==> ClosesWell(run, afterProse) && Settled(rest, false, KindOf(run) != Verbatim)
  {
    hide KindOf, FenceClose, Strip, TrimRight, ListItem, Indented, Joined, Stripped;
    JoinedKind(run);
    assert ([run] + rest)[1..] == rest;
  }

  lemma SettledVerbatim(line: string, rest: seq<string>, afterProse: bool)
    requires KindOf(line) in {Verbatim, FenceOpen}
    ensures Settled([line] + rest, false, afterProse) <==> Settled(rest, KindOf(line) == FenceOpen, false)
  {
    hide KindOf, FenceClose, Strip, TrimRight;
    assert ([line] + rest)[1..] == rest;
  }

  lemma SettledFenced(line: string, rest: seq<string>)
    ensures Settled([line] + rest, true, false) <==> Settled(rest, !FenceClose(line), false)
  {
    hide KindOf, FenceClose, Strip, TrimRight;
    assert ([line] + rest)[1..] == rest;
  }

  /** The output is settled exactly when no loose marker was left. */
  lemma {:induction false} RunSettled(lines: seq<string>, st: State, afterProse: bool)
    requires Inv(st, afterProse)
    ensures Settled(Run(lines, st), st.Fenced?, afterProse) <==> NoLooseMarker(lines, st, afterProse)
    decreases lines, 1
  {
    hide KindOf, FenceClose, Strip, TrimRight, Joined, ClosesWell, ListItem;
    if lines == [] {
      if st.Open? {
        SettledClose(st.run, [], afterProse);
        assert [st.run] + [] == [st.run];
      }
    } else {
      RunSettledStep(lines, st, afterProse);
    }
  }

  lemma {:induction false} RunSettledStep(lines: seq<string>, st: State, afterProse: bool)
    requires lines != [] && Inv(st, afterProse)
    ensures Settled(Run(lines, st), st.Fenced?, afterProse) <==> NoLooseMarker(lines, st, afterProse)
    decreases lines, 0
  {
    hide KindOf, FenceClose, Strip, TrimRight, Joined, ClosesWell, ListItem, Settled;
    var line, rest := lines[0], lines[1..];
    var n := Next(st, line);
    InvNext(st, line, afterProse);
    if st.Fenced? {
      RunSettled(rest, n, false);
      SettledFenced(line, Run(rest, n));
    } else if KindOf(line) == Prose {
      RunSettled(rest, n, afterProse);
      assert Run(lines, st) == Run(rest, n);
    } else if KindOf(line) == Item {
      if st.Open? {
        var prose := KindOf(st.run) != Verbatim;
        RunSettled(rest, n, prose);
        SettledClose(st.run, Run(rest, n), afterProse);
      } else {
        RunSettled(rest, n, false);
        assert Run(lines, st) == Run(rest, n);
      }
    } else {
      RunSettled(rest, n, false);
      SettledVerbatim(line, Run(rest, n), false);
      if st.Open? {
        SettledVerbatim(line, Run(rest, n), KindOf(st.run) != Verbatim);
        SettledClose(st.run, [line] + Run(rest, n), afterProse);
        Assoc([st.run], [line], Run(rest, n));
      } else {
        assert Emitted(st, line) == [line];
      }
    }
  }

  // ---- The front matter of the output ----

  lemma {:induction false} DelimiterKept(a: seq<string>, x: seq<string>)
    requires ThroughDelimiter(a) < |a| || x == []
    ensures var k := ThroughDelimiter(a); ThroughDelimiter(a[..k] + x) == k
  {
    hide Strip;
    var k := ThroughDelimiter(a);
    if a == [] || Strip(a[0]) == "---" {
      assert k > 0 ==> (a[..k] + x)[0] == a[0];
      assert a == [] ==> a[..k] + x == [];
    } else {
      DelimiterKept(a[1..], x);
      assert (a[..k] + x)[1..] == a[1..][..k - 1] + x;
    }
  }

  lemma FirstEmitted(st: State, line: string)
    requires !st.Fenced? && Inv(st, false) && (st.Open? || Strip(line) != "---")
    ensures !st.Fenced? && Inv(Next(st, line), false)
    ensures var e := Emitted(st, line); if e == [] then Next(st, line).Open? else Strip(e[0]) != "---"
  {
    hide KindOf, FenceClose, Strip, TrimRight, Joined, ListItem, BareMarker, Stripped;
    InvNext(st, line, false);
    if st.Open? {
      JoinedKind(st.run);
    }
  }

  /** A text without front matter does not gain any: the first output line is not a delimiter. */
  lemma {:induction false} FirstLine(lines: seq<string>, st: State)
    requires !st.Fenced? && Inv(st, false)
    requires st.Open? || (lines != [] && Strip(lines[0]) != "---")
    ensures Run(lines, st) != [] && Strip(Run(lines, st)[0]) != "---"
  {
    hide Emitted, Next, Strip, Joined, ListItem;
    if lines == [] {
      JoinedKind(st.run);
    } else {
      FirstEmitted(st, lines[0]);
      if Emitted(st, lines[0]) == [] {
        FirstLine(lines[1..], Next(st, lines[0]));
      }
    }
  }

  lemma FrontMatterKept(lines: seq<string>)
    requires lines != []
    ensures var n := FrontMatterEnd(lines);
            && FrontMatterEnd(ReflowLines(lines)) == n
            && ReflowLines(lines)[n..] == Run(lines[n..], Closed)
  {
    hide KindOf, FenceClose, Strip, TrimRight, ThroughDelimiter;
    var n := FrontMatterEnd(lines);
    var body := Run(lines[n..], Closed);
    var out := ReflowLines(lines);
    if n == 0 {
      FirstLine(lines[n..], Closed);
      assert out == body;
    } else {
      assert n < |lines| || lines[n..] == [];
      DelimiterKept(lines[1..], body);
      assert out[0] == lines[0];
      assert out[1..] == lines[1..][..n - 1] + body;
    }
  }

  /** Reflowing twice is reflowing once exactly when no loose marker was left. */
  lemma OnceIffNoLooseMarker(lines: seq<string>)
    requires lines != []
    ensures ReflowLines(ReflowLines(lines)) == ReflowLines(lines)
       <==> NoLooseMarker(lines[FrontMatterEnd(lines)..], Closed, false)
  {
    hide ReflowLines, NoLooseMarker, Run;
    FrontMatterKept(lines);
    FixedIffSettled(ReflowLines(lines));
    RunSettled(lines[FrontMatterEnd(lines)..], Closed, false);
  }

  // ---- Bare items, and why two runs always suffice ----

  /** Outside fences, every list item has text after its marker or a prose line right below it. */
  predicate NoBareItem(lines: seq<string>, fenced: bool) {
    lines == [] ||
    if fenced then NoBareItem(lines[1..], !FenceClose(lines[0]))
    else
      && (KindOf(lines[0]) == Item ==>
            ListItem(TrimRight(lines[0])) || (|lines| > 1 && KindOf(lines[1]) == Prose))
      && NoBareItem(lines[1..], KindOf(lines[0]) == FenceOpen)
  }

  lemma {:induction false} NoBareItemNoLooseMarker(lines: seq<string>, st: State, afterProse: bool)
    requires Inv(st, afterProse) && NoBareItem(lines, st.Fenced?)
    requires st.Open? && !ClosesWell(st.run, afterProse) ==> lines != [] && KindOf(lines[0]) == Prose
    ensures NoLooseMarker(lines, st, afterProse)
  {
    hide KindOf, FenceClose, Strip, TrimRight, Joined, ListItem, Indented, Stripped;
    if lines != [] {
      var line, n := lines[0], Next(st, lines[0]);
      InvNext(st, line, afterProse);
      if !st.Fenced? && KindOf(line) == Prose {
        if st.Open? {
          ProseExtends(st.run, line);
        } else {
          ProseOpens(line);
          JoinedKind(Strip(line));
          StripTwice(line);
        }
        NoBareItemNoLooseMarker(lines[1..], n, afterProse);
      } else {
        NoBareItemNoLooseMarker(lines[1..], n,
          !st.Fenced? && KindOf(line) == Item && st.Open? && KindOf(st.run) != Verbatim);
      }
    }
  }

  lemma NoBareCons(line: string, rest: seq<string>)
    requires KindOf(line) == Item ==> ListItem(TrimRight(line))
    requires NoBareItem(rest, KindOf(line) == FenceOpen)
    ensures NoBareItem([line] + rest, false)
  {
    hide KindOf, FenceClose, TrimRight, ListItem;
    assert ([line] + rest)[1..] == rest;
  }

  /** An emitted line is no bare item: a marker without text lost the space that made it one. */
  lemma EmittedNotBare(st: State, line: string, rest: seq<string>)
    requires Inv(st, false) && NoBareItem(rest, Next(st, line).Fenced?)
    ensures NoBareItem(Emitted(st, line) + rest, st.Fenced?)
  {
    hide KindOf, FenceClose, Strip, TrimRight, Joined, ListItem, NoBareItem;
    if st.Fenced? {
      NoBareFenced(line, rest);
    } else if KindOf(line) == Prose {
      assert [] + rest == rest;
    } else {
      if KindOf(line) != Item {
        NoBareCons(line, rest);
      }
      var tail := if KindOf(line) == Item then rest else [line] + rest;
      if st.Open? {
        JoinedKind(st.run);
        NoBareCons(st.run, tail);
        Assoc([st.run], [line], rest);
      } else {
        assert Emitted(st, line) + rest == tail;
      }
    }
  }

  lemma NoBareFenced(line: string, rest: seq<string>)
    requires NoBareItem(rest, !FenceClose(line))
    ensures NoBareItem([line] + rest, true)
  {
    hide KindOf, FenceClose, TrimRight, ListItem;
    assert ([line] + rest)[1..] == rest;
  }

  /** No output holds a bare item. */
  lemma {:induction false} RunHasNoBareItem(lines: seq<string>, st: State)
    requires Inv(st, false)
    ensures NoBareItem(Run(lines, st), st.Fenced?)
  {
    hide KindOf, FenceClose, Strip, TrimRight, Joined, ListItem, Emitted, Next, NoBareItem;
    if lines == [] {
      FlushNotBare(st);
    } else {
      InvNext(st, lines[0], false);
      RunHasNoBareItem(lines[1..], Next(st, lines[0]));
      EmittedNotBare(st, lines[0], Run(lines[1..], Next(st, lines[0])));
    }
  }

  lemma FlushNotBare(st: State)
    requires Inv(st, false)
    ensures NoBareItem(Flush(st), st.Fenced?)
  {
    hide KindOf, FenceClose, Strip, TrimRight, Joined, ListItem;
    if st.Open? {
      JoinedKind(st.run);
      NoBareCons(st.run, []);
      assert [st.run] + [] == [st.run];
    }
  }

  /** From the second output on, reflow changes nothing, whatever the input. */
  lemma TwiceSuffices(lines: seq<string>)
    requires lines != []
    ensures ReflowLines(ReflowLines(ReflowLines(lines))) == ReflowLines(ReflowLines(lines))
  {
    hide ReflowLines, Run, NoBareItem, NoLooseMarker;
    ReflowNonempty(lines);
    FrontMatterKept(lines);
    RunHasNoBareItem(lines[FrontMatterEnd(lines)..], Closed);
    NoBareItemNoLooseMarker(ReflowLines(lines)[FrontMatterEnd(lines)..], Closed, false);
    OnceIffNoLooseMarker(ReflowLines(lines));
  }

  // ---- The same for texts ----

  predicate OneLine(lines: seq<string>) {
    forall l | l in lines :: '\n' !in l
  }

  lemma TrimOneLine(line: string)
    requires '\n' !in line
    ensures '\n' !in TrimRight(line) && '\n' !in Strip(line)
  {
    hide IsSpace, AllSpace, TrimLeft, TrimRight;
    var l := TrimLeft(line);
    SliceOneLine(line, |line| - |l|);
    SliceOneLine(l, |TrimRight(l)|);
    SliceOneLine(line, |TrimRight(line)|);
  }

  lemma SliceOneLine(s: string, i: nat)
    requires i <= |s| && '\n' !in s
    ensures '\n' !in s[i..] && '\n' !in s[..i]
  {
  }

  lemma {:induction false} RunOneLine(lines: seq<string>, st: State)
    requires OneLine(lines) && (st.Open? ==> '\n' !in st.run)
    ensures OneLine(Run(lines, st))
  {
    hide KindOf, FenceClose, Strip, TrimRight;
    if lines != [] {
      assert lines[0] in lines;
      TrimOneLine(lines[0]);
      RunOneLine(lines[1..], Next(st, lines[0]));
    }
  }

  lemma ReflowOneLine(lines: seq<string>)
    requires OneLine(lines)
    ensures OneLine(ReflowLines(lines))
  {
    hide Run, FrontMatterEnd;
    RunOneLine(lines[FrontMatterEnd(lines)..], Closed);
  }

  /** Reflowing a text is reflowing its lines, for the text's own lines and for those of its outputs. */
  lemma ReflowTextLines(text: string)
    ensures SplitOn(ReflowText(text), '\n') == ReflowLines(SplitOn(text, '\n'))
  {
    hide ReflowLines;
    var lines := SplitOn(text, '\n');
    SplitParts(text, '\n');
    ReflowOneLine(lines);
    ReflowNonempty(lines);
    SplitJoin(ReflowLines(lines), '\n');
  }

  lemma SameText(a: string, b: string)
    ensures a == b <==> SplitOn(a, '\n') == SplitOn(b, '\n')
  {
    JoinSplit(a, '\n');
    JoinSplit(b, '\n');
  }

  function Body(text: string): seq<string> {
    var lines := SplitOn(text, '\n');
    lines[FrontMatterEnd(lines)..]
  }

  /** A text is left alone (the check mode reports nothing) exactly when its body is settled. */
  lemma UnchangedIffSettled(text: string)
    ensures ReflowText(text) == text <==> Settled(Body(text), false, false)
  {
    hide ReflowLines, ReflowText, Settled;
    ReflowTextLines(text);
    SameText(ReflowText(text), text);
    FixedIffSettled(SplitOn(text, '\n'));
  }

  /** Idempotence, exactly: a second run changes nothing if and only if the first left no loose marker. */
  lemma IdempotentIffNoLooseMarker(text: string)
    ensures ReflowText(ReflowText(text)) == ReflowText(text) <==> NoLooseMarker(Body(text), Closed, false)
  {
    hide ReflowLines, ReflowText, NoLooseMarker;
    ReflowTextLines(text);
    ReflowTextLines(ReflowText(text));
    SameText(ReflowText(ReflowText(text)), ReflowText(text));
    OnceIffNoLooseMarker(SplitOn(text, '\n'));
  }

  /** In particular a text without bare list items is settled by one run. */
  lemma IdempotentWithoutBareItems(text: string)
    requires NoBareItem(Body(text), false)
    ensures ReflowText(ReflowText(text)) == ReflowText(text)
  {
    hide ReflowText, NoBareItem, NoLooseMarker;
    NoBareItemNoLooseMarker(Body(text), Closed, false);
    IdempotentIffNoLooseMarker(text);
  }

  /** Two runs settle every text. */
  lemma SecondRunSettles(text: string)
    ensures ReflowText(ReflowText(ReflowText(text))) == ReflowText(ReflowText(text))
  {
    hide ReflowText, ReflowLines;
    ReflowTextLines(text);
    ReflowTextLines(ReflowText(text));
    ReflowTextLines(ReflowText(ReflowText(text)));
    TwiceSuffices(SplitOn(text, '\n'));
    SameText(ReflowText(ReflowText(ReflowText(text))), ReflowText(ReflowText(text)));
  }

  lemma SpaceBefore(s: string)
    requires s != "" && !IsSpace(s[0])
    ensures TrimLeft(" " + s) == s
  {
    SpaceIsSpace();
    hide IsSpace, TrimLeft;
    TrimsAtEnds(' ', s);
    TrimFixed(s);
    assert [' '] + s == " " + s;
  }

  lemma SpaceAfter(s: string)
    requires s != "" && !IsSpace(s[|s| - 1])
    ensures TrimRight(s + " ") == s
  {
    SpaceIsSpace();
    hide IsSpace, TrimRight;
    TrimsAtEnds(' ', s);
    TrimFixed(s);
    assert s + [' '] == s + " ";
  }

  lemma BulletTrims()
    ensures TrimLeft(" * ") == "* " && TrimRight("* ") == "*" && TrimRight(" * ") == " *"
    ensures TrimLeft(" *") == "*" && Strip(" * ") == "*"
  {
    StarIsNoSpace();
    hide TrimLeft, TrimRight, IsSpace;
    SpaceBefore("*");
    SpaceBefore("* ");
    SpaceAfter("*");
    SpaceAfter(" *");
    assert " " + "*" == " *" && " " + "* " == " * " && "*" + " " == "* " && " *" + " " == " * ";
  }

  lemma StarIsNoSpace()
    ensures IsSpace(' ') && !IsSpace('*')
  {
  }

  lemma BulletShape()
    ensures ItemAt("* ") && !ItemAt("*") && !HeadingAt("* ") && !FenceAt("* ") && !RuleAt("* ")
  {
    hide IsDigit;
    assert "* "[1..] == " ";
    assert MarkerLength("* ") == 1 && RunLength("* ", '#') == 0 && Count("* ", '*') <= 2;
    assert MarkerLength("*") == 1;
  }

  lemma LoneBullet()
    ensures KindOf(" * ") == Item && Strip(" * ") != "---" && TrimRight(" * ") == " *"
    ensures BareMarker(" *") && !Indented(" *") && !Stripped(" *")
  {
    hide TrimLeft, TrimRight, Strip, ItemAt, HeadingAt, FenceAt, RuleAt;
    BulletTrims();
    BulletShape();
    SpaceIsSpace();
    assert " *" + " " == " * ";
  }

  /** One run does not settle an indented bullet with nothing after it. */
  lemma OneRunIsNotAlwaysEnough()
    ensures ReflowText(ReflowText(" * ")) != ReflowText(" * ")
  {
    hide ReflowText, KindOf, Strip, TrimRight, BareMarker, Indented, Stripped;
    LoneBullet();
    IndexOfIs(" * ", '\n', 3);
    assert Body(" * ") == [" * "];
    assert [" * "][1..] == [];
    IdempotentIffNoLooseMarker(" * ");
  }
}
