/** What reflow promises: content kept, verbatim blocks untouched, and exactly when its output is a normal form. */
module ReflowProofs {
  import opened Text
  import opened MarkdownLines
  import opened LinePatterns
  import opened Reflow

  // ---- Content: a reflow only edits white space ----

  function StateTokens(st: State): seq<string> {
    if st.Open? then Tokens(st.run) else []
  }

  /** One step keeps the tokens: those held back and those emitted. */
  lemma StepTokens(st: State, line: string)
    ensures TokensOfAll(Emitted(st, line)) + StateTokens(Next(st, line)) == StateTokens(st) + Tokens(line)
  {
    hide Tokens, KindOf, Strip, TrimRight, FenceClose, IsSpace;
    SpaceIsSpace();
    TokensStrip(line);
    TokensTrimRight(line);
    if st.Open? {
      TokensAppend(st.run, ' ', Strip(line));
      TokensOfAllAppend([st.run], [line]);
    }
    assert TokensOfAll([line]) == Tokens(line);
    assert TokensOfAll(Flush(st)) == StateTokens(st);
  }

  lemma {:induction false} RunTokens(lines: seq<string>, st: State)
    ensures TokensOfAll(Run(lines, st)) == StateTokens(st) + TokensOfAll(lines)
  {
    hide Tokens, Emitted, Next;
    if lines != [] {
      var e, n := Emitted(st, lines[0]), Next(st, lines[0]);
      StepTokens(st, lines[0]);
      RunTokens(lines[1..], n);
      TokensOfAllAppend(e, Run(lines[1..], n));
      Assoc(TokensOfAll(e), StateTokens(n), TokensOfAll(lines[1..]));
      Assoc(StateTokens(st), Tokens(lines[0]), TokensOfAll(lines[1..]));
    } else {
      assert TokensOfAll(Flush(st)) == StateTokens(st);
    }
  }

  lemma RunNonempty(lines: seq<string>, st: State)
    requires lines != [] || st.Open?
    ensures Run(lines, st) != []
  {
    hide KindOf, Strip, TrimRight, FenceClose;
    if lines != [] && Emitted(st, lines[0]) == [] {
      RunNonempty(lines[1..], Next(st, lines[0]));
    }
  }

  lemma ReflowNonempty(lines: seq<string>)
    requires lines != []
    ensures ReflowLines(lines) != []
  {
    hide Run, FrontMatterEnd;
    var n := FrontMatterEnd(lines);
    if n == 0 {
      RunNonempty(lines[n..], Closed);
    }
  }

  /** For every text the token sequence is unchanged, so the guard that compares them never fires. */
  lemma TokensPreserved(text: string)
    ensures Tokens(ReflowText(text)) == Tokens(text)
  {
    hide Tokens, TokensOfAll, Run, FrontMatterEnd, SplitOn, JoinWith;
    var lines := SplitOn(text, '\n');
    var n := FrontMatterEnd(lines);
    JoinSplit(text, '\n');
    SpaceIsSpace();
    TokensOfJoin(lines, '\n');
    ReflowNonempty(lines);
    TokensOfJoin(ReflowLines(lines), '\n');
    RunTokens(lines[n..], Closed);
    TokensOfAllAppend(lines[..n], Run(lines[n..], Closed));
    TokensOfAllAppend(lines[..n], lines[n..]);
    assert lines == lines[..n] + lines[n..];
  }

  // ---- Order: verbatim lines come out byte-identical, in order ----

  /** The scanner's state when it reaches line `k` of the body. */
  function StateAt(lines: seq<string>, k: nat): State
    requires FrontMatterEnd(lines) <= k <= |lines|
  {
    After(lines[FrontMatterEnd(lines)..k], Closed)
  }

  /** The scanner copies line `k` of `lines` as it is: it lies in the front matter or a fence, or is verbatim itself. */
  predicate CopiedAt(lines: seq<string>, k: nat)
    requires k < |lines|
  {
    k < FrontMatterEnd(lines) || StateAt(lines, k).Fenced? || KindOf(lines[k]) in {Verbatim, FenceOpen}
  }

  /** The lines completed by a stretch of input, without the one still open at its end. */
  function Done(lines: seq<string>, st: State): seq<string> {
    if lines == [] then [] else Emitted(st, lines[0]) + Done(lines[1..], Next(st, lines[0]))
  }

  /** A run over two stretches: what the first completes, then the second from the state the first leaves. */
  lemma {:induction false} RunSplit(a: seq<string>, b: seq<string>, st: State)
    ensures Run(a + b, st) == Done(a, st) + Run(b, After(a, st))
  {
    hide Emitted, Next;
    if a == [] {
      assert a + b == b;
    } else {
      var n := Next(st, a[0]);
      assert (a + b)[1..] == a[1..] + b;
      RunSplit(a[1..], b, n);
      Assoc(Emitted(st, a[0]), Done(a[1..], n), Run(b, After(a[1..], n)));
    }
  }

  lemma RunDone(lines: seq<string>, st: State)
    ensures Run(lines, st) == Done(lines, st) + Flush(After(lines, st))
  {
    hide Flush, Emitted, Next;
    RunSplit(lines, [], st);
    assert lines + [] == lines;
  }

  lemma {:induction false} DelimiterOfPrefix(lines: seq<string>, k: nat)
    requires k <= |lines|
    ensures ThroughDelimiter(lines[..k]) == if k < ThroughDelimiter(lines) then k else ThroughDelimiter(lines)
  {
    hide Strip;
    if k > 0 {
      assert lines[..k][1..] == lines[1..][..k - 1];
      DelimiterOfPrefix(lines[1..], k - 1);
    }
  }

  lemma FrontMatterOfPrefix(lines: seq<string>, k: nat)
    requires k <= |lines|
    ensures FrontMatterEnd(lines[..k]) == if k < FrontMatterEnd(lines) then k else FrontMatterEnd(lines)
  {
    hide Strip, ThroughDelimiter;
    if k > 0 {
      assert lines[..k][1..] == lines[1..][..k - 1];
      DelimiterOfPrefix(lines[1..], k - 1);
    }
  }

  /** The lines completed when the scan reaches line `k`. */
  function DoneAt(lines: seq<string>, k: nat): seq<string>
    requires FrontMatterEnd(lines) <= k <= |lines|
  {
    lines[..FrontMatterEnd(lines)] + Done(lines[FrontMatterEnd(lines)..k], Closed)
  }

  lemma ReflowAt(lines: seq<string>, k: nat)
    requires FrontMatterEnd(lines) <= k <= |lines|
    ensures ReflowLines(lines[..k]) == DoneAt(lines, k) + Flush(StateAt(lines, k))
    ensures ReflowLines(lines) == DoneAt(lines, k) + Run(lines[k..], StateAt(lines, k))
  {
    hide Run, Done, After, Flush, FrontMatterEnd;
    var n := FrontMatterEnd(lines);
    var a := lines[n..k];
    FrontMatterOfPrefix(lines, k);
    assert lines[..k][..n] == lines[..n] && lines[..k][n..] == a && lines[n..] == a + lines[k..];
    RunDone(a, Closed);
    RunSplit(a, lines[k..], Closed);
    Assoc(lines[..n], Done(a, Closed), Flush(After(a, Closed)));
    Assoc(lines[..n], Done(a, Closed), Run(lines[k..], After(a, Closed)));
  }

  /** A copied line comes out unchanged, right after everything the lines before it yield. */
  lemma CopiedLinesKept(lines: seq<string>, k: nat)
    requires k < |lines| && CopiedAt(lines, k)
    ensures ReflowLines(lines[..k]) + [lines[k]] <= ReflowLines(lines)
  {
    hide KindOf, FenceClose, Strip, TrimRight, FrontMatterEnd, Done, After;
    var n := FrontMatterEnd(lines);
    FrontMatterOfPrefix(lines, k);
    if k < n {
      assert lines[..k][..k] == lines[..k];
      assert lines[..k + 1] == lines[..k] + [lines[k]];
      assert lines[..k + 1] <= lines[..n];
    } else {
      ReflowAt(lines, k);
      RunStep(lines, k, StateAt(lines, k));
    }
  }

  /**
   The same on the characters: wherever it stands, a blank line, a fence's first line, a heading, a table, HTML or quote
   line, a rule, an underline, and indented code come out unchanged, in place.
   */
  lemma BlocksKept(lines: seq<string>, k: nat)
    requires k < |lines|
    requires
      || OpensFence(lines[k]) || AllSpace(lines[k]) || IsBlockLine(lines[k])
      || (FourSpaces(lines[k]) && !StartsItem(lines[k]))
    ensures ReflowLines(lines[..k]) + [lines[k]] <= ReflowLines(lines)
  {
    hide KindOf, OpensFence, AllSpace, IsBlockLine, FourSpaces, StartsItem, ReflowLines, FrontMatterEnd, StateAt;
    KindExactly(lines[k]);
    CopiedLinesKept(lines, k);
  }

  /** The lines of the front matter and of fences, on the lines' own characters. */
  lemma FrontMatterExactly(lines: seq<string>)
    ensures var n := FrontMatterEnd(lines);
            && (n > 0 <==> lines != [] && Strip(lines[0]) == "---")
            && (forall k | 0 < k < n - 1 :: Strip(lines[k]) != "---")
            && (0 < n < |lines| ==> n > 1 && Strip(lines[n - 1]) == "---")
  {
    hide Strip;
    if lines != [] && Strip(lines[0]) == "---" {
      DelimiterExactly(lines[1..]);
    }
  }

  lemma {:induction false} DelimiterExactly(lines: seq<string>)
    ensures var n := ThroughDelimiter(lines);
            && (forall k | 0 <= k < n - 1 :: Strip(lines[k]) != "---")
            && (n < |lines| ==> n > 0 && Strip(lines[n - 1]) == "---")
  {
    hide Strip;
    if lines != [] && Strip(lines[0]) != "---" {
      DelimiterExactly(lines[1..]);
    }
  }

  /** A line of the body lies in a fence exactly when a fence opened before it and nothing closed it since. */
  lemma {:induction false} FencedExactly(lines: seq<string>, k: nat)
    requires FrontMatterEnd(lines) <= k <= |lines|
    ensures StateAt(lines, k).Fenced? <==>
            exists j | FrontMatterEnd(lines) <= j < k ::
              && !StateAt(lines, j).Fenced? && OpensFence(lines[j])
              && forall i | j < i < k :: !FenceClose(lines[i])
    decreases k
  {
    hide KindOf, FenceClose, Strip, TrimRight, FrontMatterEnd, OpensFence, StateAt;
    var n := FrontMatterEnd(lines);
    if k == n {
      StateStarts(lines);
    } else {
      FencedExactly(lines, k - 1);
      StateNext(lines, k - 1);
      KindExactly(lines[k - 1]);
    }
  }

  lemma StateStarts(lines: seq<string>)
    ensures StateAt(lines, FrontMatterEnd(lines)) == Closed
  {
    hide FrontMatterEnd;
    assert lines[FrontMatterEnd(lines)..FrontMatterEnd(lines)] == [];
  }

  lemma {:induction false} AfterSnoc(a: seq<string>, line: string, st: State)
    ensures After(a + [line], st) == Next(After(a, st), line)
  {
    hide Next;
    if a != [] {
      assert (a + [line])[1..] == a[1..] + [line];
      AfterSnoc(a[1..], line, Next(st, a[0]));
    } else {
      assert (a + [line])[1..] == [];
    }
  }

  lemma StateNext(lines: seq<string>, k: nat)
    requires FrontMatterEnd(lines) <= k < |lines|
    ensures StateAt(lines, k + 1) == Next(StateAt(lines, k), lines[k])
  {
    hide After, Next, FrontMatterEnd;
    var n := FrontMatterEnd(lines);
    assert lines[n..k + 1] == lines[n..k] + [lines[k]];
    AfterSnoc(lines[n..k], lines[k], Closed);
  }

  // ---- Joining: where the text of the other lines goes ----

  /** An open line only grows to the right. */
  lemma {:induction false} OpenLineGrows(lines: seq<string>, run: string)
    ensures var out := Run(lines, Open(run)); out != [] && run <= out[0]
  {
    hide KindOf, FenceClose, Strip, TrimRight;
    if lines != [] && KindOf(lines[0]) == Prose {
      OpenLineGrows(lines[1..], run + " " + Strip(lines[0]));
    }
  }

  /** A list item starts an output line of its own, indentation included, after everything the lines before it yield. */
  lemma ItemStartsLine(lines: seq<string>, k: nat)
    requires FrontMatterEnd(lines) <= k < |lines|
    requires !StateAt(lines, k).Fenced? && KindOf(lines[k]) == Item
    ensures var before := ReflowLines(lines[..k]);
            && before < ReflowLines(lines) && TrimRight(lines[k]) <= ReflowLines(lines)[|before|]
  {
    hide KindOf, FenceClose, Strip, TrimRight, FrontMatterEnd, ReflowLines, DoneAt, StateAt, Run;
    var st := StateAt(lines, k);
    ReflowAt(lines, k);
    RunStep(lines, k, st);
    OpenLineGrows(lines[k + 1..], TrimRight(lines[k]));
    assert ReflowLines(lines) == ReflowLines(lines[..k]) + Run(lines[k + 1..], Open(TrimRight(lines[k]))) by {
      Assoc(DoneAt(lines, k), Flush(st), Run(lines[k + 1..], Open(TrimRight(lines[k]))));
    }
  }

  /**
   A prose line goes, stripped and after one space, onto the line that is open when it is reached, and starts a line of
   its own when none is.
   */
  lemma ProseJoinsLine(lines: seq<string>, k: nat)
    requires FrontMatterEnd(lines) <= k < |lines|
    requires !StateAt(lines, k).Fenced? && KindOf(lines[k]) == Prose
    ensures var before, out := ReflowLines(lines[..k]), ReflowLines(lines);
            if StateAt(lines, k).Open? then
              && before != []
              && var m := |before| - 1;
                 before[..m] < out && before[m] + " " + Strip(lines[k]) <= out[m]
            else before < out && Strip(lines[k]) <= out[|before|]
  {
    hide KindOf, FenceClose, Strip, TrimRight, FrontMatterEnd, ReflowLines, DoneAt, StateAt, Run;
    var st := StateAt(lines, k);
    var run := if st.Open? then st.run + " " + Strip(lines[k]) else Strip(lines[k]);
    ReflowAt(lines, k);
    RunProse(lines, k, st);
    OpenLineGrows(lines[k + 1..], run);
    assert DoneAt(lines, k) + [] == DoneAt(lines, k);
  }
}
