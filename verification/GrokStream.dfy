/** robofleet/agent_sdk/grok_cli_session.py: assembling stream events into chunks, and closing every turn. */
module GrokStream {
  import opened OptionType
  import opened Text

  /** A parsed stream event; `End` carries the session id (empty when absent) and the stop reason. */
  datatype Event = Thought(data: string) | Delta(data: string) | End(sessionId: string, stopReason: string) | UnknownEvent

  datatype Detail = LastLine(text: string) | ExitCode(code: Option<int>)
  datatype Problem = CouldNotStart(reason: string) | TimedOut | RateLimited | EndedUnexpectedly(detail: Detail)

  datatype EndData = EndData(sessionId: Option<string>, stopReason: Option<string>)

  /** A chunk for the panel; the `TurnEnd` of a failed turn carries no data. */
  datatype Chunk =
    | Thinking(text: string)
    | TextChunk(text: string)
    | Draft(draft: string)
    | TurnEnd(data: Option<EndData>)
    | Error(problem: Problem)

  function NonEmpty(s: string): Option<string> {
    if s == "" then None else Some(s)
  }

  function Concat(parts: seq<string>): string {
    if parts == [] then "" else parts[0] + Concat(parts[1..])
  }

  lemma {:induction false} ConcatSnoc(parts: seq<string>, s: string)
    ensures Concat(parts + [s]) == Concat(parts) + s
  {
    if parts != [] {
      assert (parts + [s])[1..] == parts[1..] + [s];
      ConcatSnoc(parts[1..], s);
    }
  }

  /** The assembler's fields as one value. */
  datatype Turn = Turn(
    thinking: seq<string>, text: seq<string>, sessionId: Option<string>, stopReason: Option<string>, sawEnd: bool)

  const NEW_TURN := Turn([], [], None, None, false)

  function Flushed(t: Turn): seq<Chunk> {
    if Concat(t.thinking) == "" then [] else [Thinking(Concat(t.thinking))]
  }

  /** One event: the new state and the chunks it emits. `extract` finds a fenced draft in the answer text. */
  function Step(t: Turn, e: Event, extract: string -> Option<string>): (Turn, seq<Chunk>) {
    match e
    case Thought(data) => (t.(thinking := t.thinking + [data]), [])
    case Delta(data) =>
      if data == "" then (t.(thinking := []), Flushed(t))
      else (t.(thinking := [], text := t.text + [data]), Flushed(t) + [TextChunk(data)])
    case End(sid, stop) =>
      var session := if sid != "" then Some(sid) else t.sessionId;
      var draft := extract(Concat(t.text));
      (t.(thinking := [], sessionId := session, stopReason := NonEmpty(stop), sawEnd := true),
       Flushed(t) + (if draft.Some? then [Draft(draft.value)] else []) + [TurnEnd(Some(EndData(session, NonEmpty(stop))))])
    case UnknownEvent => (t, [])
  }

  class StreamAssembler {
    var thinking: seq<string>
    var text: seq<string>
    var sessionId: Option<string>
    var stopReason: Option<string>
    var sawEnd: bool

    function State(): Turn
      reads this
    {
      Turn(thinking, text, sessionId, stopReason, sawEnd)
    }

    constructor ()
      ensures State() == NEW_TURN
    {
      thinking, text, sessionId, stopReason, sawEnd := [], [], None, None, false;
    }

    method FlushThinking() returns (chunks: seq<Chunk>)
      modifies this
      ensures chunks == Flushed(old(State()))
      ensures State() == old(State()).(thinking := [])
    {
      if thinking == [] {
        return [];
      }
      var joined := Concat(thinking);
      thinking := [];
      chunks := if joined != "" then [Thinking(joined)] else [];
    }

    method Feed(e: Event, extract: string -> Option<string>) returns (chunks: seq<Chunk>)
      modifies this
      ensures (State(), chunks) == Step(old(State()), e, extract)
    {
      match e
      case Thought(data) =>
        thinking := thinking + [data];
        return [];
      case Delta(piece) =>
        chunks := FlushThinking();
        if piece != "" {
          text := text + [piece];
          chunks := chunks + [TextChunk(piece)];
        }
      case End(_, _) =>
        chunks := Finish(e, extract);
      case UnknownEvent =>
        return [];
    }

    method Finish(e: Event, extract: string -> Option<string>) returns (chunks: seq<Chunk>)
      requires e.End?
      modifies this
      ensures (State(), chunks) == Step(old(State()), e, extract)
    {
      chunks := FlushThinking();
      if e.sessionId != "" {
        sessionId := Some(e.sessionId);
      }
      stopReason := NonEmpty(e.stopReason);
      sawEnd := true;
      var draft := extract(Concat(text));
      if draft.Some? {
        chunks := chunks + [Draft(draft.value)];
      }
      assert draft.None? ==> chunks == chunks + [];
      chunks := chunks + [TurnEnd(Some(EndData(sessionId, stopReason)))];
    }
  }

  // ---- Whole streams ----

  /** The state after a stream and everything emitted for it. */
  function Assemble(events: seq<Event>, extract: string -> Option<string>): (Turn, seq<Chunk>) {
    if events == [] then (NEW_TURN, [])
    else
      var n := |events| - 1;
      var (t, out) := Assemble(events[..n], extract);
      var (u, more) := Step(t, events[n], extract);
      (u, out + more)
  }

  datatype Channel = Reasoning | Answer

  function Mark(k: Channel, s: string): seq<(Channel, char)> {
    seq(|s|, i requires 0 <= i < |s| => (k, s[i]))
  }

  lemma MarkAppend(k: Channel, a: string, b: string)
    ensures Mark(k, a + b) == Mark(k, a) + Mark(k, b)
  {
  }

  function ChunkContent(c: Chunk): seq<(Channel, char)> {
    match c
    case Thinking(text) => Mark(Reasoning, text)
    case TextChunk(text) => Mark(Answer, text)
    case _ => []
  }

  function Content(chunks: seq<Chunk>): seq<(Channel, char)> {
    if chunks == [] then [] else ChunkContent(chunks[0]) + Content(chunks[1..])
  }

  lemma {:induction false} ContentAppend(a: seq<Chunk>, b: seq<Chunk>)
    ensures Content(a + b) == Content(a) + Content(b)
  {
    if a == [] {
      assert a + b == b;
    } else {
      assert (a + b)[1..] == a[1..] + b;
      ContentAppend(a[1..], b);
    }
  }

  function EventContent(e: Event): seq<(Channel, char)> {
    match e
    case Thought(data) => Mark(Reasoning, data)
    case Delta(data) => Mark(Answer, data)
    case _ => []
  }

  function StreamContent(events: seq<Event>): seq<(Channel, char)> {
    if events == [] then []
    else StreamContent(events[..|events| - 1]) + EventContent(events[|events| - 1])
  }

  function Pending(t: Turn): seq<(Channel, char)> {
    Mark(Reasoning, Concat(t.thinking))
  }

  lemma FlushedContent(t: Turn)
    ensures Content(Flushed(t)) == Pending(t)
    ensures t.thinking == [] ==> Pending(t) == []
  {
  }

  lemma EmptyContent(k: Channel)
    ensures Content([]) == [] && Mark(k, "") == []
  {
  }

  lemma OneChunk(c: Chunk)
    ensures Content([c]) == ChunkContent(c)
  {
    hide ChunkContent;
    assert [c][1..] == [];
    assert ChunkContent(c) + [] == ChunkContent(c);
  }

  /** One event's characters join what is buffered, or come out after it. */
  lemma StepKeepsContent(t: Turn, e: Event, extract: string -> Option<string>)
    ensures var (u, out) := Step(t, e, extract); Content(out) + Pending(u) == Pending(t) + EventContent(e)
  {
    hide Concat, Content, Mark, Flushed;
    var (u, out) := Step(t, e, extract);
    FlushedContent(t);
    FlushedContent(u);
    EmptyContent(Answer);
    match e
    case Thought(data) =>
      ConcatSnoc(t.thinking, data);
      MarkAppend(Reasoning, Concat(t.thinking), data);
    case Delta(data) =>
      OneChunk(TextChunk(data));
      ContentAppend(Flushed(t), [TextChunk(data)]);
    case End(sid, stop) =>
      var draft := extract(Concat(t.text));
      var d := if draft.Some? then [Draft(draft.value)] else [];
      var last := TurnEnd(Some(EndData(u.sessionId, u.stopReason)));
      ContentAppend(Flushed(t) + d, [last]);
      ContentAppend(Flushed(t), d);
      OneChunk(last);
      if draft.Some? {
        OneChunk(Draft(draft.value));
      }
    case UnknownEvent =>
  }

  /** Coalescing neither loses, repeats, reorders nor relabels a character: what is missing is still buffered. */
  lemma {:induction false} CoalescingKeepsContent(events: seq<Event>, extract: string -> Option<string>)
    ensures var (t, out) := Assemble(events, extract); Content(out) + Pending(t) == StreamContent(events)
  {
    hide Step, Pending, EventContent;
    if events == [] {
      FlushedContent(NEW_TURN);
    } else {
      var n := |events| - 1;
      CoalescingKeepsContent(events[..n], extract);
      var (t, out) := Assemble(events[..n], extract);
      var (u, more) := Step(t, events[n], extract);
      StepKeepsContent(t, events[n], extract);
      ContentAppend(out, more);
      Assoc(Content(out), Content(more), Pending(u));
      Assoc(Content(out), Pending(t), EventContent(events[n]));
    }
  }

  // ---- What each event emits, told from the stream alone ----

  /** The reasoning since the last answer piece or `end`. */
  function ReasoningSince(events: seq<Event>): string {
    if events == [] then ""
    else
      var before, last := events[..|events| - 1], events[|events| - 1];
      match last
      case Thought(data) => ReasoningSince(before) + data
      case Delta(_) => ""
      case End(_, _) => ""
      case UnknownEvent => ReasoningSince(before)
  }

  /** The whole answer so far. */
  function AnswerText(events: seq<Event>): string {
    if events == [] then ""
    else
      var before, last := events[..|events| - 1], events[|events| - 1];
      AnswerText(before) + if last.Delta? then last.data else ""
  }

  /** The session id of the last `end` that carries one. */
  function ReportedId(events: seq<Event>): Option<string> {
    if events == [] then None
    else
      var before, last := events[..|events| - 1], events[|events| - 1];
      if last.End? && last.sessionId != "" then Some(last.sessionId) else ReportedId(before)
  }

  function Block(reasoning: string): seq<Chunk> {
    if reasoning == "" then [] else [Thinking(reasoning)]
  }

  /**
   What an event emits after a stream: an answer piece or an `end` first releases the reasoning so far as one block; an
   `end` then gives the draft found in the whole answer, if any, and closes with the last session id and its own reason.
   */
  function Emission(events: seq<Event>, e: Event, extract: string -> Option<string>): seq<Chunk> {
    match e
    case Thought(_) => []
    case UnknownEvent => []
    case Delta(data) => Block(ReasoningSince(events)) + if data == "" then [] else [TextChunk(data)]
    case End(_, stop) =>
      var draft := extract(AnswerText(events));
      Block(ReasoningSince(events)) + (if draft.Some? then [Draft(draft.value)] else [])
      + [TurnEnd(Some(EndData(ReportedId(events + [e]), if stop == "" then None else Some(stop))))]
  }

  /** What a state holds of the stream that led to it. */
  predicate Follows(t: Turn, events: seq<Event>) {
    && Concat(t.thinking) == ReasoningSince(events) && Concat(t.text) == AnswerText(events)
    && t.sessionId == ReportedId(events)
    && (t.sawEnd <==> exists e | e in events :: e.End?)
  }

  lemma HistoryNext(events: seq<Event>, e: Event)
    ensures var all := events + [e];
            && ReasoningSince(all) == (if e.Thought? then ReasoningSince(events) + e.data else if e.UnknownEvent? then ReasoningSince(events) else "")
            && AnswerText(all) == AnswerText(events) + (if e.Delta? then e.data else "")
            && ReportedId(all) == (if e.End? && e.sessionId != "" then Some(e.sessionId) else ReportedId(events))
  {
    assert (events + [e])[..|events|] == events;
  }

  lemma StepFollows(t: Turn, events: seq<Event>, e: Event, extract: string -> Option<string>)
    requires Follows(t, events)
    ensures Follows(Step(t, e, extract).0, events + [e])
    ensures Step(t, e, extract).1 == Emission(events, e, extract)
  {
    hide Concat, ReasoningSince, AnswerText, ReportedId;
    HistoryNext(events, e);
    NoParts();
    assert forall d | d in events + [e] :: d in events || d == e;
    assert e in events + [e];
    assert forall d | d in events :: d in events + [e];
    match e
    case Thought(data) => ConcatSnoc(t.thinking, data);
    case Delta(data) => ConcatSnoc(t.text, data);
    case End(_, _) =>
    case UnknownEvent =>
  }

  lemma NoParts()
    ensures Concat([]) == ""
  {
  }

  lemma {:induction false} StateFollows(events: seq<Event>, extract: string -> Option<string>)
    ensures Follows(Assemble(events, extract).0, events)
  {
    hide Step, Follows;
    if events == [] {
      NewTurnFollows();
    } else {
      var n := |events| - 1;
      StateFollows(events[..n], extract);
      StepFollows(Assemble(events[..n], extract).0, events[..n], events[n], extract);
      assert events == events[..n] + [events[n]];
    }
  }

  lemma NewTurnFollows()
    ensures Follows(NEW_TURN, [])
  {
  }

  /** The assembler refines that account: after any stream, the next event emits exactly this. */
  lemma EmissionExactly(events: seq<Event>, e: Event, extract: string -> Option<string>)
    ensures Assemble(events + [e], extract).1 == Assemble(events, extract).1 + Emission(events, e, extract)
  {
    hide Step, Follows, Emission;
    StateFollows(events, extract);
    StepFollows(Assemble(events, extract).0, events, e, extract);
    assert (events + [e])[..|events|] == events;
  }
}
