/** scripts/reflow_md.py: the block scanner that joins hard-wrapped prose, and what it computes. */
module Reflow {
  import opened Text
  import opened MarkdownLines

  /** What the scanner carries between lines: inside a fence, with an unfinished joined line, or neither. */
  datatype State = Fenced | Closed | Open(run: string)

  function Flush(st: State): seq<string> {
    if st.Open? then [st.run] else []
  }

  /** Lines that reading `line` in state `st` completes. */
  function Emitted(st: State, line: string): seq<string> {
    if st.Fenced? then [line]
    else match KindOf(line) {
      case Verbatim => Flush(st) + [line]
      case FenceOpen => Flush(st) + [line]
      case Item => Flush(st)
      case Prose => []
    }
  }

  function Next(st: State, line: string): State {
    if st.Fenced? then (if FenceClose(line) then Closed else Fenced)
    else match KindOf(line) {
      case Verbatim => Closed
      case FenceOpen => Fenced
      case Item => Open(TrimRight(line))
      case Prose => Open(if st.Open? then st.run + " " + Strip(line) else Strip(line))
    }
  }

  /** The scanner as a transducer that reads one line at a time. */
  function Run(lines: seq<string>, st: State): seq<string> {
    if lines == [] then Flush(st)
    else Emitted(st, lines[0]) + Run(lines[1..], Next(st, lines[0]))
  }

  function After(lines: seq<string>, st: State): State {
    if lines == [] then st else After(lines[1..], Next(st, lines[0]))
  }

  /** Number of lines in a leading `---` block, its delimiters included. */
  function FrontMatterEnd(lines: seq<string>): (n: nat)
    ensures n <= |lines|
  {
    if lines == [] || Strip(lines[0]) != "---" then 0
    else 1 + ThroughDelimiter(lines[1..])
  }

  function ThroughDelimiter(lines: seq<string>): (n: nat)
    ensures n <= |lines|
  {
    if lines == [] then 0
    else if Strip(lines[0]) == "---" then 1
    else 1 + ThroughDelimiter(lines[1..])
  }

  function ReflowLines(lines: seq<string>): seq<string> {
    var n := FrontMatterEnd(lines);
    lines[..n] + Run(lines[n..], Closed)
  }

  function ReflowText(text: string): string {
    JoinWith(ReflowLines(SplitOn(text, '\n')), '\n')
  }

  /** `" ".join` over one item: its own line keeps its indentation, the others are stripped. */
  function JoinItem(item: seq<string>): string
    requires item != []
  {
    if |item| == 1 then TrimRight(item[0])
    else JoinItem(item[..|item| - 1]) + " " + Strip(item[|item| - 1])
  }

  /** `" ".join` over a paragraph, whose lines were stripped when they were collected. */
  function JoinSpaced(para: seq<string>): string
    requires para != []
  {
    if |para| == 1 then para[0]
    else JoinSpaced(para[..|para| - 1]) + " " + para[|para| - 1]
  }

  lemma RunStep(lines: seq<string>, i: nat, st: State)
    requires i < |lines|
    ensures Run(lines[i..], st) == Emitted(st, lines[i]) + Run(lines[i + 1..], Next(st, lines[i]))
  {
    hide Emitted, Next;
    assert lines[i..][1..] == lines[i + 1..];
  }

  /** An open run is finished by anything but prose. */
  lemma RunFinishes(lines: seq<string>, i: nat, run: string)
    requires i <= |lines|
    requires i == |lines| || KindOf(lines[i]) != Prose
    ensures Run(lines[i..], Open(run)) == [run] + Run(lines[i..], Closed)
  {
    hide KindOf, FenceClose, Strip, TrimRight;
    if i < |lines| {
      RunStep(lines, i, Open(run));
      RunStep(lines, i, Closed);
      Assoc([run], Emitted(Closed, lines[i]), Run(lines[i + 1..], Next(Closed, lines[i])));
    }
  }

  lemma RunProse(lines: seq<string>, i: nat, st: State)
    requires i < |lines| && !st.Fenced? && KindOf(lines[i]) == Prose
    ensures Run(lines[i..], st) == Run(lines[i + 1..], Next(st, lines[i]))
  {
    hide KindOf, FenceClose, Strip, TrimRight;
    RunStep(lines, i, st);
  }

  lemma RunNothing(lines: seq<string>)
    requires lines == []
    ensures Run(lines, Closed) == []
  {
  }

  lemma RunOpenProse(lines: seq<string>, i: nat, item: seq<string>)
    requires i < |lines| && KindOf(lines[i]) == Prose && item != []
    ensures Run(lines[i..], Open(JoinItem(item))) == Run(lines[i + 1..], Open(JoinItem(item + [Strip(lines[i])])))
  {
    hide KindOf, FenceClose, Strip, TrimRight, Run, JoinItem;
    RunProse(lines, i, Open(JoinItem(item)));
    JoinItemGrows(item, lines[i]);
  }

  lemma JoinItemStarts(line: string)
    ensures JoinItem([line]) == TrimRight(line)
  {
  }

  lemma RunItem(lines: seq<string>, i: nat)
    requires i < |lines| && KindOf(lines[i]) == Item
    ensures Run(lines[i..], Closed) == Run(lines[i + 1..], Open(TrimRight(lines[i])))
  {
    hide KindOf, FenceClose, Strip, TrimRight;
    RunStep(lines, i, Closed);
  }

  lemma RunVerbatim(lines: seq<string>, i: nat, out: seq<string>)
    requires i < |lines| && KindOf(lines[i]) in {Verbatim, FenceOpen}
    ensures out + Run(lines[i..], Closed) == out + ([lines[i]] + Run(lines[i + 1..], Next(Closed, lines[i])))
    ensures out + Run(lines[i..], Closed) == (out + [lines[i]]) + Run(lines[i + 1..], Next(Closed, lines[i]))
  {
    hide KindOf, FenceClose, Strip, TrimRight;
    RunStep(lines, i, Closed);
    assert Emitted(Closed, lines[i]) == [lines[i]];
  }

  lemma RunFenced(lines: seq<string>, i: nat)
    requires i < |lines|
    ensures var st := if FenceClose(lines[i]) then Closed else Fenced;
            Run(lines[i..], Fenced) == [lines[i]] + Run(lines[i + 1..], st)
  {
    hide KindOf, FenceClose, Strip, TrimRight, Run;
    RunStep(lines, i, Fenced);
  }

  lemma FenceStarts(lines: seq<string>, start: nat)
    requires start < |lines| && KindOf(lines[start]) == FenceOpen
    ensures lines[start..start + 1] == [lines[start]]
    ensures lines[start..start + 1] + Run(lines[start + 1..], Fenced) == Run(lines[start..], Closed)
  {
    hide KindOf, FenceClose, Strip, TrimRight, Run;
    RunStep(lines, start, Closed);
  }

  lemma FenceContinues(lines: seq<string>, start: nat, i: nat)
    requires start < i < |lines|
    ensures var st := if FenceClose(lines[i]) then Closed else Fenced;
            lines[start..i + 1] + Run(lines[i + 1..], st) == lines[start..i] + Run(lines[i..], Fenced)
    ensures lines[start..i + 1] == lines[start..i] + [lines[i]]
  {
    hide FenceClose, Run;
    RunFenced(lines, i);
    Assoc(lines[start..i], [lines[i]], Run(lines[i + 1..], if FenceClose(lines[i]) then Closed else Fenced));
  }

  lemma FenceEnds(lines: seq<string>, start: nat, i: nat, st: State, out: seq<string>)
    requires start < i <= |lines| && (st.Closed? || (st.Fenced? && i == |lines|))
    requires lines[start..i] + Run(lines[i..], st) == Run(lines[start..], Closed)
    ensures (out + lines[start..i]) + Run(lines[i..], Closed) == out + Run(lines[start..], Closed)
  {
    hide Emitted, Next;
    Assoc(out, lines[start..i], Run(lines[i..], Closed));
  }

  /** The same, where one of the helpers' loops has stopped. */
  lemma FinishesAt(lines: seq<string>, i: nat, run: string, out: seq<string>)
    requires i <= |lines|
    requires i == |lines| || BlockBreak(lines[i]) || ListItem(lines[i]) || Strip(lines[i]) == ""
    ensures out + Run(lines[i..], Open(run)) == (out + [run]) + Run(lines[i..], Closed)
    ensures i < |lines| && Strip(lines[i]) == "" ==> BlockBreak(lines[i])
  {
    hide KindOf, Strip, TrimRight, Passthrough, ListItem, FenceClose;
    if i < |lines| {
      KindAgrees(lines[i]);
    }
    RunFinishes(lines, i, run);
    Assoc(out, [run], Run(lines[i..], Closed));
  }

  lemma StripTwice(s: string)
    ensures Strip(Strip(s)) == Strip(s)
  {
    TrimFixed(Strip(s));
  }

  lemma JoinItemGrows(item: seq<string>, line: string)
    requires item != []
    ensures JoinItem(item + [Strip(line)]) == JoinItem(item) + " " + Strip(line)
  {
    hide Strip, TrimRight;
    assert (item + [Strip(line)])[..|item|] == item;
    StripTwice(line);
  }

  function Collected(para: seq<string>): State {
    if para == [] then Closed else Open(JoinSpaced(para))
  }

  lemma CollectedGrows(para: seq<string>, line: string)
    requires KindOf(line) == Prose
    ensures Next(Collected(para), line) == Collected(para + [Strip(line)])
  {
    hide KindOf, FenceClose, Strip, TrimRight;
    assert (para + [Strip(line)])[..|para|] == para;
  }

  /** The list `out` shared by the scanner's helpers, and the helpers that grow it. */
  class Reflower {
    var out: seq<string>

    constructor ()
      ensures out == []
    {
      out := [];
    }

    /** Copies a fenced block through its closing fence, or to the end when it never closes. */
    method CopyFence(lines: seq<string>, start: nat) returns (i: nat)
      requires start < |lines| && KindOf(lines[start]) == FenceOpen
      modifies this
      ensures start < i <= |lines|
      ensures out == old(out) + lines[start..i]
      ensures forall k | start < k < i - 1 :: !FenceClose(lines[k])
      ensures i == |lines| || (start < i - 1 && FenceClose(lines[i - 1]))
      ensures out + Run(lines[i..], Closed) == old(out) + Run(lines[start..], Closed)
    {
      hide KindOf, FenceClose, Emitted, Next, Run;
      FenceStarts(lines, start);
      ghost var before := out;
      ghost var st := Fenced;
      out := out + [lines[start]];
      i := start + 1;
      while i < |lines|
        invariant start < i <= |lines|
        invariant out == before + lines[start..i]
        invariant forall k | start < k < i :: !FenceClose(lines[k])
        invariant st == Fenced && lines[start..i] + Run(lines[i..], Fenced) == Run(lines[start..], Closed)
      {
        FenceContinues(lines, start, i);
        st := if FenceClose(lines[i]) then Closed else Fenced;
        out := out + [lines[i]];
        var closed := FenceClose(lines[i]);
        i := i + 1;
        if closed {
          break;
        }
      }
      FenceEnds(lines, start, i, st, before);
    }

    /** Emits one line per list item, lazy continuations joined. */
    method JoinList(lines: seq<string>, start: nat) returns (i: nat)
      requires start < |lines| && KindOf(lines[start]) == Item
      modifies this
      ensures start < i <= |lines|
      ensures out + Run(lines[i..], Closed) == old(out) + Run(lines[start..], Closed)
      ensures i == |lines| || BlockBreak(lines[i])
    {
      hide KindOf, BlockBreak, Strip, TrimRight, ListItem, FenceClose, Emitted, Next, Run, JoinItem;
      ghost var goal := out + Run(lines[start..], Closed);
      KindAgrees(lines[start]);
      i := start;
      while i < |lines| && !BlockBreak(lines[i]) && ListItem(lines[i])
        invariant start <= i <= |lines|
        invariant i == start || i == |lines| || BlockBreak(lines[i]) || ListItem(lines[i])
        invariant out + Run(lines[i..], Closed) == goal
      {
        KindAgrees(lines[i]);
        RunItem(lines, i);
        JoinItemStarts(lines[i]);
        ghost var rest, before := Run(lines[i..], Closed), out;
        var item := [lines[i]];
        i := i + 1;
        while i < |lines| && Strip(lines[i]) != "" && !ListItem(lines[i]) && !BlockBreak(lines[i])
          invariant start < i <= |lines|
          invariant out == before && item != []
          invariant rest == Run(lines[i..], Open(JoinItem(item)))
        {
          KindAgrees(lines[i]);
          RunOpenProse(lines, i, item);
          item := item + [Strip(lines[i])];
          i := i + 1;
        }
        FinishesAt(lines, i, JoinItem(item), out);
        out := out + [JoinItem(item)];
      }
    }

    /** Joins a plain paragraph into one line. */
    method JoinParagraph(lines: seq<string>, start: nat) returns (i: nat)
      requires start < |lines| && KindOf(lines[start]) == Prose
      modifies this
      ensures start < i <= |lines|
      ensures out + Run(lines[i..], Closed) == old(out) + Run(lines[start..], Closed)
    {
      hide KindOf, BlockBreak, Strip, TrimRight, ListItem, FenceClose, Emitted;
      ghost var rest := Run(lines[start..], Closed);
      KindAgrees(lines[start]);
      var para: seq<string> := [];
      i := start;
      while i < |lines| && !BlockBreak(lines[i]) && !ListItem(lines[i])
        invariant start <= i <= |lines|
        invariant out == old(out)
        invariant para == [] <==> i == start
        invariant rest == Run(lines[i..], Collected(para))
      {
        KindAgrees(lines[i]);
        RunProse(lines, i, Collected(para));
        CollectedGrows(para, lines[i]);
        para := para + [Strip(lines[i])];
        i := i + 1;
      }
      FinishesAt(lines, i, JoinSpaced(para), out);
      out := out + [JoinSpaced(para)];
    }

    /** Copies a leading `---` block and returns the index after it. */
    method SkipFrontMatter(lines: seq<string>) returns (i: nat)
      modifies this
      ensures i == FrontMatterEnd(lines)
      ensures out == old(out) + lines[..i]
    {
      hide Strip;
      if lines == [] || Strip(lines[0]) != "---" {
        return 0;
      }
      out := out + [lines[0]];
      i := 1;
      while i < |lines| && Strip(lines[i]) != "---"
        invariant 1 <= i <= |lines|
        invariant out == old(out) + lines[..i]
        invariant FrontMatterEnd(lines) == i + ThroughDelimiter(lines[i..])
      {
        out := out + [lines[i]];
        i := i + 1;
      }
      if i < |lines| {
        out := out + [lines[i]];
        i := i + 1;
      }
    }

    /** The whole scan. */
    method Scan(text: string) returns (result: string)
      requires out == []
      modifies this
      ensures result == ReflowText(text)
    {
      hide KindOf, Fence, Strip, TrimRight, ListItem, FenceClose, SplitOn, JoinWith, Emitted, Run, FrontMatterEnd;
      var lines := SplitOn(text, '\n');
      var i := SkipFrontMatter(lines);
      while i < |lines|
        invariant i <= |lines|
        invariant out + Run(lines[i..], Closed) == ReflowLines(lines)
      {
        var line := lines[i];
        KindAgrees(line);
        if Strip(line) == "" {
          RunVerbatim(lines, i, out);
          out := out + [line];
          i := i + 1;
        } else if Fence(line) {
          i := CopyFence(lines, i);
        } else if Passthrough(line) {
          RunVerbatim(lines, i, out);
          out := out + [line];
          i := i + 1;
        } else if ListItem(line) {
          i := JoinList(lines, i);
        } else {
          i := JoinParagraph(lines, i);
        }
      }
      RunNothing(lines[i..]);
      assert out == ReflowLines(lines);
      result := JoinWith(out, '\n');
    }
  }
}
