/** robofleet/agent_sdk/grok_cli_session.py `send`: one turn of the conversation, from spawn to its closing chunks. */
module GrokTurn {
  import opened OptionType
  import opened Text
  import opened GrokStream

  /** How reading the output lines stops; it raises, say, at a line longer than the stream's buffer. */
  datatype Stop = EndOfStream | Deadline | ReadRaises

  /**
   How the subprocess of a turn behaves: it cannot be started, for an error of the operating system or for another, or
   its output lines (parsed, `None` where a line is no event) are read until reading stops. Capturing the usage may
   raise as well: its helper swallows only errors of the operating system.
   */
  datatype Process =
    | SpawnFails(reason: string)
    | SpawnRaises
    | Runs(lines: seq<Option<Event>>, stop: Stop, returncode: Option<int>, stderr: string, captureRaises: bool)

  function Events(lines: seq<Option<Event>>): seq<Event> {
    if lines == [] then []
    else
      var n := |lines| - 1;
      if lines[n].Some? then Events(lines[..n]) + [lines[n].value] else Events(lines[..n])
  }

  const RATE_LIMIT_MARKERS := ["429", "rate limit", "too many requests", "quota", "insufficient_quota"]

  /** `_classify_failure` */
  function ClassifyFailure(returncode: Option<int>, stderr: string, lower: string -> string): Problem {
    var blob := Strip(stderr);
    var lines := SplitLines(blob);
    if exists m | m in RATE_LIMIT_MARKERS :: Contains(lower(blob), m) then RateLimited
    else EndedUnexpectedly(if blob != "" && lines != [] then LastLine(lines[|lines| - 1]) else ExitCode(returncode))
  }

  /** `_finalize`: the chunks that close an abnormal turn; none after a clean one. */
  function Finalize(timedOut: bool, t: Turn, returncode: Option<int>, stderr: string, lower: string -> string): seq<Chunk> {
    if timedOut then [Error(TimedOut), TurnEnd(None)]
    else if !t.sawEnd then [Error(ClassifyFailure(returncode, stderr, lower)), TurnEnd(None)]
    else []
  }

  /** The exception that ends the turn early is none that `send` handles. */
  predicate Interrupted(p: Process, capturing: bool) {
    p.SpawnRaises? || (p.Runs? && (p.stop.ReadRaises? || (capturing && p.captureRaises)))
  }

  /** Everything one turn emits; `capturing` says whether its usage is captured. */
  function TurnChunks(p: Process, capturing: bool, extract: string -> Option<string>, lower: string -> string): seq<Chunk> {
    match p
    case SpawnFails(reason) => [Error(CouldNotStart(reason)), TurnEnd(None)]
    case SpawnRaises => []
    case Runs(lines, stop, returncode, stderr, _) =>
      var (t, out) := Assemble(Events(lines), extract);
      if Interrupted(p, capturing) then out else out + Finalize(stop.Deadline?, t, returncode, stderr, lower)
  }

  class GrokCliSession {
    const extract: string -> Option<string>
    const lower: string -> string
    const hasUsageFile: bool
    var sessionId: Option<string>
    var captures: seq<string>

    constructor (extract: string -> Option<string>, lower: string -> string, hasUsageFile: bool)
      ensures sessionId == None && captures == []
      ensures this.extract == extract && this.lower == lower && this.hasUsageFile == hasUsageFile
    {
      this.extract, this.lower, this.hasUsageFile := extract, lower, hasUsageFile;
      sessionId, captures := None, [];
    }

    /** Feeds every event line read to the assembler, in order; how reading then stops is the caller's matter. */
    method Drain(lines: seq<Option<Event>>, assembler: StreamAssembler) returns (chunks: seq<Chunk>)
      requires assembler.State() == NEW_TURN
      modifies assembler
      ensures (assembler.State(), chunks) == Assemble(Events(lines), extract)
    {
      chunks := [];
      var i := 0;
      while i < |lines|
        invariant 0 <= i <= |lines|
        invariant (assembler.State(), chunks) == Assemble(Events(lines[..i]), extract)
      {
        assert lines[..i + 1][..i] == lines[..i];
        if lines[i].Some? {
          EventsNext(lines, i);
          var more := assembler.Feed(lines[i].value, extract);
          chunks := chunks + more;
        } else {
          assert Events(lines[..i + 1]) == Events(lines[..i]);
        }
        i := i + 1;
      }
      assert lines[..i] == lines;
    }

    /** Captures the usage under the current session id, if there is one and a file to write to; it may raise. */
    method CaptureUsage(raises: bool) returns (raised: bool)
      modifies this`captures
      ensures captures == old(captures) + if hasUsageFile && sessionId.Some? then [sessionId.value] else []
      ensures raised == (hasUsageFile && sessionId.Some? && raises)
    {
      if !(hasUsageFile && sessionId.Some?) {
        return false;
      }
      captures := captures + [sessionId.value];
      return raises;
    }

    /**
     One turn: what it emits, whether it raises, the session id it leaves, and the usage captures attempted. The chunks
     emitted before an exception have reached the panel.
     */
    method Send(p: Process) returns (chunks: seq<Chunk>, raised: bool)
      modifies this
      ensures sessionId == if p.Runs? && !p.stop.ReadRaises? && ReportedId(Events(p.lines)).Some?
                           then ReportedId(Events(p.lines)) else old(sessionId)
      ensures var capturing := p.Runs? && !p.stop.ReadRaises? && hasUsageFile && sessionId.Some?;
              && chunks == TurnChunks(p, capturing, extract, lower)
              && captures == (if capturing then old(captures) + [sessionId.value] else old(captures))
              && (raised <==> p.SpawnRaises? || (p.Runs? && (p.stop.ReadRaises? || (capturing && p.captureRaises))))
    {
      if p.SpawnRaises? {
        return [], true;
      }
      if p.SpawnFails? {
        return [Error(CouldNotStart(p.reason)), TurnEnd(None)], false;
      }
      var assembler := new StreamAssembler();
      chunks := Drain(p.lines, assembler);
      SessionReported(p.lines, extract);
      if p.stop.ReadRaises? {
        return chunks, true;
      }
      if assembler.sessionId.Some? {
        sessionId := assembler.sessionId;
      }
      raised := CaptureUsage(p.captureRaises);
      if raised {
        return;
      }
      chunks := chunks + Finalize(p.stop.Deadline?, assembler.State(), p.returncode, p.stderr, lower);
    }
  }

  lemma SessionReported(lines: seq<Option<Event>>, extract: string -> Option<string>)
    ensures Assemble(Events(lines), extract).0.sessionId == ReportedId(Events(lines))
  {
    hide Assemble, ReportedId;
    StateFollows(Events(lines), extract);
  }

  /** The events of a turn: one for each line that is one, in order. */
  lemma {:induction false} EventsExactly(lines: seq<Option<Event>>, more: seq<Option<Event>>, e: Event)
    ensures Events([]) == [] && Events([None]) == [] && Events([Some(e)]) == [e]
    ensures Events(lines + more) == Events(lines) + Events(more)
  {
    if more == [] {
      assert lines + more == lines;
    } else {
      var n := |more| - 1;
      EventsExactly(lines, more[..n], e);
      var all := lines + more;
      assert all[..|all| - 1] == lines + more[..n] && all[|all| - 1] == more[n];
    }
  }

  lemma EventsNext(lines: seq<Option<Event>>, i: nat)
    requires i < |lines| && lines[i].Some?
    ensures var es := Events(lines[..i + 1]);
            |es| > 0 && es[..|es| - 1] == Events(lines[..i]) && es[|es| - 1] == lines[i].value
  {
    assert lines[..i + 1][..i] == lines[..i];
  }

  // ---- How a turn closes ----

  function TurnEnds(chunks: seq<Chunk>): nat {
    if chunks == [] then 0 else (if chunks[0].TurnEnd? then 1 else 0) + TurnEnds(chunks[1..])
  }

  function Errors(chunks: seq<Chunk>): nat {
    if chunks == [] then 0 else (if chunks[0].Error? then 1 else 0) + Errors(chunks[1..])
  }

  function Ends(events: seq<Event>): nat {
    if events == [] then 0
    else Ends(events[..|events| - 1]) + if events[|events| - 1].End? then 1 else 0
  }

  lemma {:induction false} CountsAppend(a: seq<Chunk>, b: seq<Chunk>)
    ensures TurnEnds(a + b) == TurnEnds(a) + TurnEnds(b) && Errors(a + b) == Errors(a) + Errors(b)
  {
    if a == [] {
      assert a + b == b;
    } else {
      assert (a + b)[1..] == a[1..] + b;
      CountsAppend(a[1..], b);
    }
  }

  lemma StepCounts(t: Turn, e: Event, extract: string -> Option<string>)
    ensures var (u, out) := Step(t, e, extract);
            && TurnEnds(out) == (if e.End? then 1 else 0) && Errors(out) == 0
            && u.sawEnd == (t.sawEnd || e.End?)
            && (e.End? ==> out != [] && out[|out| - 1].TurnEnd? && Concat(u.thinking) == "")
  {
    var (u, out) := Step(t, e, extract);
    var f := Flushed(t);
    assert TurnEnds(f) == 0 && Errors(f) == 0;
    match e
    case Thought(_) =>
    case Delta(data) =>
      CountsAppend(f, [TextChunk(data)]);
    case End(_, _) =>
      var draft := extract(Concat(t.text));
      var d := if draft.Some? then [Draft(draft.value)] else [];
      var last := [TurnEnd(Some(EndData(u.sessionId, u.stopReason)))];
      CountsAppend(f, d);
      CountsAppend(f + d, last);
      assert TurnEnds(last) == 1 && Errors(last) == 0;
    case UnknownEvent =>
  }

  lemma {:induction false} AssembleCounts(events: seq<Event>, extract: string -> Option<string>)
    ensures var (t, out) := Assemble(events, extract);
            TurnEnds(out) == Ends(events) && Errors(out) == 0 && (t.sawEnd <==> Ends(events) > 0)
  {
    hide Step;
    if events != [] {
      var n := |events| - 1;
      AssembleCounts(events[..n], extract);
      var (t, out) := Assemble(events[..n], extract);
      StepCounts(t, events[n], extract);
      CountsAppend(out, Step(t, events[n], extract).1);
    }
  }

  lemma ClosingPair(problem: Problem)
    ensures var pair := [Error(problem), TurnEnd(None)];
            TurnEnds(pair) == 1 && Errors(pair) == 1 && Content(pair) == []
  {
    CountsAppend([Error(problem)], [TurnEnd(None)]);
    ContentAppend([Error(problem)], [TurnEnd(None)]);
    assert [Error(problem)] + [TurnEnd(None)] == [Error(problem), TurnEnd(None)];
  }

  /** A turn that has to be closed for the process: it never started, hit its deadline, or ended without an `end`. */
  predicate Abnormal(p: Process) {
    p.SpawnFails? || (p.Runs? && (p.stop.Deadline? || Ends(Events(p.lines)) == 0))
  }

  /** The turn emits the closing pair itself. */
  predicate ClosesItself(p: Process, capturing: bool) {
    Abnormal(p) && !Interrupted(p, capturing)
  }

  function StreamEnds(p: Process): nat {
    if p.Runs? then Ends(Events(p.lines)) else 0
  }

  /**
   How a turn closes: it emits one `TurnEnd` per `end` event and one more exactly when it is abnormal and nothing
   interrupts it; then, and only then, one error, right before that last `TurnEnd`. So it emits at least one exactly
   when nothing interrupts it or the stream had its `end` before.
   */
  lemma TurnCloses(p: Process, capturing: bool, extract: string -> Option<string>, lower: string -> string)
    ensures var out := TurnChunks(p, capturing, extract, lower);
            var closes := ClosesItself(p, capturing);
            && TurnEnds(out) == StreamEnds(p) + (if closes then 1 else 0)
            && Errors(out) == (if closes then 1 else 0)
            && (closes ==> |out| >= 2 && out[|out| - 2].Error? && out[|out| - 1] == TurnEnd(None))
            && (TurnEnds(out) >= 1 <==> !Interrupted(p, capturing) || StreamEnds(p) > 0)
  {
    hide ClassifyFailure;
    match p
    case SpawnFails(reason) =>
      ClosingPair(CouldNotStart(reason));
    case SpawnRaises =>
    case Runs(lines, stop, returncode, stderr, _) =>
      var (t, body) := Assemble(Events(lines), extract);
      AssembleCounts(Events(lines), extract);
      if !Interrupted(p, capturing) {
        var tail := Finalize(stop.Deadline?, t, returncode, stderr, lower);
        CountsAppend(body, tail);
        if tail != [] {
          ClosingPair(tail[0].problem);
          assert tail == [tail[0], TurnEnd(None)];
        }
      }
  }

  /**
   The panel's spinner clears exactly once: for a turn that runs to its close, when no `end` follows another and none
   precedes the deadline; for an interrupted one, when the stream had exactly one `end`.
   */
  lemma ExactlyOneTurnEnd(p: Process, capturing: bool, extract: string -> Option<string>, lower: string -> string)
    ensures TurnEnds(TurnChunks(p, capturing, extract, lower)) == 1 <==>
            if Interrupted(p, capturing) then StreamEnds(p) == 1
            else StreamEnds(p) == 0 || (StreamEnds(p) == 1 && !p.stop.Deadline?)
  {
    hide TurnChunks;
    TurnCloses(p, capturing, extract, lower);
  }

  /** The error of a turn that closes itself: the failed start, the deadline, or what the process left behind. */
  lemma ProblemExactly(p: Process, capturing: bool, extract: string -> Option<string>, lower: string -> string)
    requires ClosesItself(p, capturing)
    ensures var out := TurnChunks(p, capturing, extract, lower);
            |out| >= 2 && out[|out| - 2] == Error(
              if p.SpawnFails? then CouldNotStart(p.reason)
              else if p.stop.Deadline? then TimedOut
              else ClassifyFailure(p.returncode, p.stderr, lower))
  {
    hide ClassifyFailure, Assemble;
    TurnCloses(p, capturing, extract, lower);
    if p.Runs? {
      AssembleCounts(Events(p.lines), extract);
    }
  }

  /**
   What the process left behind: a rate limit when its error output names one, else the last line of that output, else
   its exit code.
   */
  lemma FailureExactly(returncode: Option<int>, stderr: string, lower: string -> string)
    ensures var said := Strip(stderr);
            var limited := Contains(lower(said), "429") || Contains(lower(said), "rate limit")
                        || Contains(lower(said), "too many requests") || Contains(lower(said), "quota")
                        || Contains(lower(said), "insufficient_quota");
            match ClassifyFailure(returncode, stderr, lower)
            case RateLimited => limited
            case EndedUnexpectedly(ExitCode(code)) => !limited && AllSpace(stderr) && code == returncode
            case EndedUnexpectedly(LastLine(l)) =>
              !limited && !AllSpace(stderr) && IsLastLine(said, l)
            case _ => false
  {
    BreaksAreSpace();
    hide Strip, Contains, IsSpace, IsLineBreak, SplitLines, AllSpace, IsLastLine;
    var said := Strip(stderr);
    MarkerNamed(lower(said));
    if said != "" {
      LastLineIs(said);
    }
  }

  lemma BreaksAreSpace()
    ensures forall c | IsLineBreak(c) :: IsSpace(c)
  {
  }

  lemma MarkerNamed(text: string)
    ensures (exists m | m in RATE_LIMIT_MARKERS :: Contains(text, m)) <==>
            || Contains(text, "429") || Contains(text, "rate limit") || Contains(text, "too many requests")
            || Contains(text, "quota") || Contains(text, "insufficient_quota")
  {
    hide Contains;
    var ms := RATE_LIMIT_MARKERS;
    assert ms[0] in ms && ms[1] in ms && ms[2] in ms && ms[3] in ms && ms[4] in ms;
  }

  /** Reasoning is buffered after these events (none of them an `end`). */
  predicate Buffers(events: seq<Event>) {
    events != [] &&
    var n := |events| - 1;
    match events[n]
    case Thought(data) => data != "" || Buffers(events[..n])
    case Delta(_) => false
    case _ => Buffers(events[..n])
  }

  /** These events make something visible: answer text, or an empty answer piece that releases buffered reasoning. */
  predicate Shows(events: seq<Event>) {
    events != [] &&
    var n := |events| - 1;
    Shows(events[..n]) || (events[n].Delta? && (events[n].data != "" || Buffers(events[..n])))
  }

  lemma StepAfterEnd(t: Turn, e: Event, extract: string -> Option<string>)
    requires !e.End?
    ensures var (u, more) := Step(t, e, extract);
            var buffered := Concat(t.thinking) != "";
            && (Concat(u.thinking) != "" <==> (e.Thought? && e.data != "") || (!e.Delta? && buffered))
            && (more != [] <==> e.Delta? && (e.data != "" || buffered))
            && (more != [] ==> !more[|more| - 1].TurnEnd?)
  {
    if e.Thought? {
      ConcatSnoc(t.thinking, e.data);
    }
  }

  lemma {:induction false} AfterEnd(base: seq<Event>, after: seq<Event>, extract: string -> Option<string>)
    requires base != [] && base[|base| - 1].End? && Ends(after) == 0
    ensures var (t, out) := Assemble(base + after, extract);
            && (Concat(t.thinking) != "" <==> Buffers(after))
            && out != [] && (out[|out| - 1].TurnEnd? <==> !Shows(after))
            && Ends(base + after) == Ends(base)
    decreases |after|
  {
    hide Step, Concat;
    if after == [] {
      assert base + after == base;
      var n := |base| - 1;
      StepCounts(Assemble(base[..n], extract).0, base[n], extract);
    } else {
      var n := |after| - 1;
      var all := base + after;
      assert all[..|all| - 1] == base + after[..n] && all[|all| - 1] == after[n];
      AfterEnd(base, after[..n], extract);
      var (t, out) := Assemble(base + after[..n], extract);
      StepAfterEnd(t, after[n], extract);
      assert out + [] == out;
    }
  }

  /** The events after the last `end`. */
  function AfterLastEnd(events: seq<Event>): seq<Event> {
    if events == [] || events[|events| - 1].End? then []
    else AfterLastEnd(events[..|events| - 1]) + [events[|events| - 1]]
  }

  lemma {:induction false} ThroughLastEnd(events: seq<Event>) returns (base: seq<Event>)
    requires Ends(events) > 0
    ensures events == base + AfterLastEnd(events) && Ends(AfterLastEnd(events)) == 0
    ensures base != [] && base[|base| - 1].End?
  {
    var n := |events| - 1;
    if events[n].End? {
      base := events;
    } else {
      base := ThroughLastEnd(events[..n]);
      var after := AfterLastEnd(events[..n]);
      assert (after + [events[n]])[..|after|] == after;
      assert events == events[..n] + [events[n]];
    }
  }

  lemma LastIsCounted(out: seq<Chunk>)
    requires out != [] && out[|out| - 1].TurnEnd?
    ensures TurnEnds(out) > 0
  {
    var n := |out| - 1;
    CountsAppend(out[..n], [out[n]]);
    assert out == out[..n] + [out[n]];
  }

  /** A turn that does not close itself emits what its stream carries and no more. */
  lemma StreamOnly(p: Process, capturing: bool, extract: string -> Option<string>, lower: string -> string)
    requires p.Runs? && !ClosesItself(p, capturing)
    ensures TurnChunks(p, capturing, extract, lower) == Assemble(Events(p.lines), extract).1
  {
    hide ClassifyFailure, Assemble;
    AssembleCounts(Events(p.lines), extract);
    var out := Assemble(Events(p.lines), extract).1;
    assert out + [] == out;
  }

  /**
   Whether a turn ends with a `TurnEnd`, for every turn: exactly when it closes itself, or the stream had an `end` and
   no event after the last one shows anything.
   */
  lemma EndsWithTurnEnd(p: Process, capturing: bool, extract: string -> Option<string>, lower: string -> string)
    ensures var out := TurnChunks(p, capturing, extract, lower);
            out != [] && out[|out| - 1].TurnEnd? <==>
            || ClosesItself(p, capturing)
            || (StreamEnds(p) > 0 && !Shows(AfterLastEnd(Events(p.lines))))
  {
    hide TurnChunks, Assemble, Shows;
    var out := TurnChunks(p, capturing, extract, lower);
    TurnCloses(p, capturing, extract, lower);
    if out != [] && out[|out| - 1].TurnEnd? {
      LastIsCounted(out);
    }
    if StreamEnds(p) > 0 && !ClosesItself(p, capturing) {
      var base := ThroughLastEnd(Events(p.lines));
      AfterEnd(base, AfterLastEnd(Events(p.lines)), extract);
      StreamOnly(p, capturing, extract, lower);
    }
  }

  /** A clean turn, with the events after its last `end` named: no error, and its last chunk a `TurnEnd` or not. */
  lemma CleanTurnEndsLast(p: Process, capturing: bool, base: seq<Event>, after: seq<Event>,
                          extract: string -> Option<string>, lower: string -> string)
    requires p.Runs? && !ClosesItself(p, capturing) && Events(p.lines) == base + after
    requires base != [] && base[|base| - 1].End? && Ends(after) == 0
    ensures var out := TurnChunks(p, capturing, extract, lower);
            && Errors(out) == 0 && TurnEnds(out) == Ends(base)
            && out != [] && (out[|out| - 1].TurnEnd? <==> !Shows(after))
  {
    hide TurnChunks, Assemble, Shows;
    AfterEnd(base, after, extract);
    TurnCloses(p, capturing, extract, lower);
    assert Ends(base) > 0;
    StreamOnly(p, capturing, extract, lower);
  }

  /** Answer text after an `end` leaves a turn that runs to its close without a `TurnEnd` at its end. */
  lemma TextAfterEnd(capturing: bool, extract: string -> Option<string>, lower: string -> string)
    ensures var p := Runs([Some(End("", "")), Some(Delta("x"))], EndOfStream, Some(0), "", false);
            var out := TurnChunks(p, capturing, extract, lower);
            !Interrupted(p, capturing) && out != [] && !out[|out| - 1].TurnEnd?
  {
    hide TurnChunks, Assemble;
    var end, text := End("", ""), Delta("x");
    var p := Runs([Some(end), Some(text)], EndOfStream, Some(0), "", false);
    assert p.lines[..1] == [Some(end)] && [Some(end)][..0] == [];
    assert Events([Some(end)]) == [] + [end];
    assert Events(p.lines) == [end] + [text];
    assert [text][..0] == [] && [end][..0] == [] && Ends([end]) == 1;
    assert ([end] + [text])[..|[end] + [text]| - 1] == [end];
    CleanTurnEndsLast(p, capturing, [end], [text], extract, lower);
  }

  /**
   Once the stream had an `end`, or its deadline passed, neither the exit code nor the error output changes what a turn
   emits: a turn that exits with a failure after its `end` shows no error.
   */
  lemma ExitCodeIsIgnored(p: Process, code: Option<int>, stderr: string, capturing: bool,
                          extract: string -> Option<string>, lower: string -> string)
    requires p.Runs? && (StreamEnds(p) > 0 || p.stop.Deadline?)
    ensures TurnChunks(p.(returncode := code, stderr := stderr), capturing, extract, lower)
         == TurnChunks(p, capturing, extract, lower)
    ensures !p.stop.Deadline? ==> Errors(TurnChunks(p, capturing, extract, lower)) == 0
  {
    hide ClassifyFailure, Assemble;
    AssembleCounts(Events(p.lines), extract);
    TurnCloses(p, capturing, extract, lower);
  }

  /** So a clean `end` and a failing exit code give a turn without an error. */
  lemma FailedExitShowsNoError(code: int, stderr: string, capturing: bool,
                               extract: string -> Option<string>, lower: string -> string)
    ensures Errors(TurnChunks(Runs([Some(End("", ""))], EndOfStream, Some(code), stderr, false),
                              capturing, extract, lower)) == 0
  {
    hide TurnChunks;
    var end := End("", "");
    var p := Runs([Some(end)], EndOfStream, Some(code), stderr, false);
    assert p.lines[..0] == [] && [end][..0] == [] && [] + [end] == [end];
    assert Events(p.lines) == [end] && Ends([end]) == 1;
    ExitCodeIsIgnored(p, Some(0), "", capturing, extract, lower);
  }

  /** A read that raises before any `end`, or a raising capture, leaves a turn without any `TurnEnd` at all. */
  lemma InterruptedBeforeEnd(lower: string -> string, extract: string -> Option<string>)
    ensures TurnChunks(Runs([], ReadRaises, None, "", false), false, extract, lower) == []
    ensures TurnChunks(Runs([], EndOfStream, Some(1), "", true), true, extract, lower) == []
  {
  }

  /**
   What a turn shows is a prefix of what the stream carried, in order and with its channel; the rest is reasoning that
   was still buffered when the stream stopped.
   */
  lemma TurnKeepsContent(p: Process, capturing: bool, extract: string -> Option<string>, lower: string -> string)
    requires p.Runs?
    ensures Content(TurnChunks(p, capturing, extract, lower)) + Pending(Assemble(Events(p.lines), extract).0)
         == StreamContent(Events(p.lines))
  {
    hide ClassifyFailure, Step, Pending;
    var (t, out) := Assemble(Events(p.lines), extract);
    CoalescingKeepsContent(Events(p.lines), extract);
    if !Interrupted(p, capturing) {
      var tail := Finalize(p.stop.Deadline?, t, p.returncode, p.stderr, lower);
      ContentAppend(out, tail);
      if tail != [] {
        ClosingPair(tail[0].problem);
        assert tail == [tail[0], TurnEnd(None)];
      }
      assert Content(out) + [] == Content(out);
    }
  }
}
