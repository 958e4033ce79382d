/** robofleet/agent/adk_entry.py `main`: sessions, restarts and the usage report of one agent run. */
module RestartLoop {
  import opened OptionType
  import opened Text
  import opened FailureChain

  const MODEL_RESTARTS := 2
  const RATE_LIMIT_EXIT := 75
  const AUTH_EXIT := 78

  const RESUME_NOTE :=
    "\n\nRESUME: your previous session in this container was cut by a model-request error after real progress was made."
    + " Re-read the task state (evidence(task_id) or give_me_work) and continue from where it stands; do not redo"
    + " finished steps."

  // ---- Usage ----

  /** The counters that a runner event's usage metadata may carry. */
  datatype Metadata = Metadata(
    prompt: Option<int>, candidates: Option<int>, thoughts: Option<int>, cached: Option<int>)

  datatype Event = Event(usage: Option<Metadata>)

  datatype Usage = Usage(
    turns: int, toolCalls: int, input: int, output: int, cacheRead: int, cacheWrite: int)
  {
    function Plus(u: Usage): Usage {
      Usage(turns + u.turns, toolCalls + u.toolCalls, input + u.input, output + u.output,
            cacheRead + u.cacheRead, cacheWrite + u.cacheWrite)
    }
  }

  const NO_USAGE := Usage(0, 0, 0, 0, 0, 0)

  /** What one event is billed: a turn, its prompt, its candidates plus thoughts, its cache reads. */
  function EventUsage(e: Event): Usage {
    match e.usage
    case None => Usage(1, 0, 0, 0, 0, 0)
    case Some(m) => Usage(1, 0, m.prompt.GetOr(0), m.candidates.GetOr(0) + m.thoughts.GetOr(0), m.cached.GetOr(0), 0)
  }

  function TotalUsage(events: seq<Event>): Usage {
    if events == [] then NO_USAGE
    else TotalUsage(events[..|events| - 1]).Plus(EventUsage(events[|events| - 1]))
  }

  lemma PlusAssoc(a: Usage, b: Usage, c: Usage)
    ensures a.Plus(b).Plus(c) == a.Plus(b.Plus(c))
    ensures a.Plus(NO_USAGE) == a
  {
  }

  lemma TotalUsageNext(events: seq<Event>, i: nat)
    requires i < |events|
    ensures TotalUsage(events[..i + 1]) == TotalUsage(events[..i]).Plus(EventUsage(events[i]))
  {
    hide EventUsage, Usage.Plus;
    assert events[..i + 1][..i] == events[..i];
  }

  lemma {:induction false} TotalUsageAppend(a: seq<Event>, b: seq<Event>)
    ensures TotalUsage(a + b) == TotalUsage(a).Plus(TotalUsage(b))
  {
    hide EventUsage, Usage.Plus;
    if b == [] {
      assert a + b == a;
      PlusAssoc(TotalUsage(a), NO_USAGE, NO_USAGE);
    } else {
      var n := |b| - 1;
      assert (a + b)[..|a| + n] == a + b[..n];
      TotalUsageAppend(a, b[..n]);
      PlusAssoc(TotalUsage(a), TotalUsage(b[..n]), EventUsage(b[n]));
    }
  }

  function SumOf(events: seq<Event>, count: Metadata -> Option<int>): int {
    if events == [] then 0
    else SumOf(events[1..], count) + (if events[0].usage.Some? then count(events[0].usage.value).GetOr(0) else 0)
  }

  lemma {:induction false} SumOfNext(events: seq<Event>, e: Event, count: Metadata -> Option<int>)
    ensures SumOf(events + [e], count) ==
            SumOf(events, count) + (if e.usage.Some? then count(e.usage.value).GetOr(0) else 0)
  {
    if events != [] {
      assert (events + [e])[1..] == events[1..] + [e];
      SumOfNext(events[1..], e, count);
    }
  }

  /** The totals are plain sums over all events: none is dropped, none overwrites another. */
  lemma {:induction false} TotalsAreSums(events: seq<Event>)
    ensures var t := TotalUsage(events);
            && t.turns == |events| && t.toolCalls == 0 && t.cacheWrite == 0
            && t.input == SumOf(events, (m: Metadata) => m.prompt)
            && t.output == SumOf(events, (m: Metadata) => m.candidates) + SumOf(events, (m: Metadata) => m.thoughts)
            && t.cacheRead == SumOf(events, (m: Metadata) => m.cached)
  {
    if events != [] {
      var before, e := events[..|events| - 1], events[|events| - 1];
      TotalsAreSums(before);
      assert events == before + [e];
      SumOfNext(before, e, (m: Metadata) => m.prompt);
      SumOfNext(before, e, (m: Metadata) => m.candidates);
      SumOfNext(before, e, (m: Metadata) => m.thoughts);
      SumOfNext(before, e, (m: Metadata) => m.cached);
    }
  }

  // ---- Sessions and how they fail ----

  datatype CrashData = CrashData(heap: Heap, exc: Id)

  /** An exception together with the objects behind it. */
  type Crash = c: CrashData | Closed(c.heap) && c.exc in c.heap && c.heap[c.exc].Failure?
    witness CrashData(map[0 := Failure(None, None, None, "", "", false)], 0)

  /** How a session ends: normally, by an exception, or by one that is no `Exception`, such as a cancellation. */
  datatype End = Finished | Failed(crash: Crash) | Escaped
  datatype Session = Session(events: seq<Event>, end: End)

  /**
   What the run meets: whether the setup fails, how the `k`-th session started with a given prompt goes, and whether
   posting the usage report raises.
   */
  datatype World = World(setupFails: bool, session: (nat, string) -> Session, postFails: bool)

  /** Walking the causes of the exception raises. */
  predicate Broken(c: Crash) {
    ChainRaises(c.heap, c.exc)
  }

  predicate IsToolLoop(c: Crash) {
    AnyInChain(c.heap, c.exc, (f: Failure) => f.Failure? && f.isToolLoop)
  }

  predicate IsInvalidRequest(c: Crash) {
    AnyInChain(c.heap, c.exc, (f: Failure) => f.Failure? && Contains(f.text, "INVALID_ARGUMENT"))
  }

  function Classify(f: Failure): Option<int>
    requires f.Failure?
  {
    if Contains(f.typeName, "ResourceExhausted") || Contains(f.text, "429") then Some(RATE_LIMIT_EXIT)
    else if Contains(f.typeName, "Unauthenticated") || Contains(f.text, "401") then Some(AUTH_EXIT)
    else None
  }

  datatype Reason = Normal | ToolLoop | RateLimited | Auth | CrashReason
  datatype Report = Report(usage: Usage, reason: Reason)
  datatype Exit = Code(code: int) | Raised(crash: Crash) | ReportRaised | WalkRaised | Escapes | SetupRaised

  /** The reason and exit code of a failure that ends the run in an orderly way. */
  function Classified(c: Crash): Option<(Reason, int)> {
    if IsToolLoop(c) then Some((ToolLoop, 0))
    else match Classify(c.heap[c.exc])
      case None => None
      case Some(code) => Some((if code == RATE_LIMIT_EXIT then RateLimited else Auth, code))
  }

  /** A failure that a fresh session may cure. */
  predicate Restartable(end: End) {
    end.Failed? && !Broken(end.crash) && Classified(end.crash).None? && IsInvalidRequest(end.crash)
  }

  // ---- What a whole run amounts to ----

  function WithNote(initial: string): string {
    if Contains(initial, RESUME_NOTE) then initial else initial + RESUME_NOTE
  }

  /** The prompt of session `k`: the resume note is added once, before the first restart. */
  function PromptOf(initial: string, k: nat): string {
    if k == 0 then initial else WithNote(initial)
  }

  function SessionOf(w: World, initial: string, k: nat): Session {
    w.session(k, PromptOf(initial, k))
  }

  /** Index of the session that ends the run: the first that is not restartable, or the third. */
  function LastSession(w: World, initial: string): (k: nat)
    ensures k <= MODEL_RESTARTS
    ensures forall j | 0 <= j < k :: Restartable(SessionOf(w, initial, j).end)
    ensures k < MODEL_RESTARTS ==> !Restartable(SessionOf(w, initial, k).end)
  {
    if !Restartable(SessionOf(w, initial, 0).end) then 0
    else if !Restartable(SessionOf(w, initial, 1).end) then 1
    else 2
  }

  lemma LastIs(w: World, initial: string, k: nat)
    requires k <= MODEL_RESTARTS && forall j | 0 <= j < k :: Restartable(SessionOf(w, initial, j).end)
    requires k < MODEL_RESTARTS ==> !Restartable(SessionOf(w, initial, k).end)
    ensures LastSession(w, initial) == k
  {
    hide Restartable, SessionOf;
  }

  /** Every event of the first `n` sessions, in order. */
  function EventsOf(w: World, initial: string, n: nat): seq<Event> {
    if n == 0 then [] else EventsOf(w, initial, n - 1) + SessionOf(w, initial, n - 1).events
  }

  lemma TotalOfSessions(w: World, initial: string, n: nat)
    ensures TotalUsage(EventsOf(w, initial, 0)) == NO_USAGE
    ensures TotalUsage(EventsOf(w, initial, n + 1))
         == TotalUsage(EventsOf(w, initial, n)).Plus(TotalUsage(SessionOf(w, initial, n).events))
  {
    hide Usage.Plus, EventUsage;
    TotalUsageAppend(EventsOf(w, initial, n), SessionOf(w, initial, n).events);
  }

  /** The reason under which the run's end is reported, if it is. */
  function ReasonOf(end: End): Option<Reason> {
    match end
    case Finished => Some(Normal)
    case Escaped => None
    case Failed(c) =>
      if Broken(c) then None
      else match Classified(c) { case Some((r, _)) => Some(r) case None => Some(CrashReason) }
  }

  function ExitOf(end: End, postFails: bool): Exit {
    match end
    case Finished => if postFails then ReportRaised else Code(0)
    case Escaped => Escapes
    case Failed(c) =>
      if Broken(c) then WalkRaised
      else match Classified(c) {
        case Some((_, code)) => if postFails then ReportRaised else Code(code)
        case None => Raised(c)
      }
  }

  /** Which ends are reported: all but an escape, and a failure behind which something is no exception. */
  lemma ReportedIff(end: End)
    ensures ReasonOf(end).Some? <==>
            || end.Finished?
            || (end.Failed? && forall id | id in end.crash.heap && Reachable(end.crash.heap, end.crash.exc, id) ::
                  end.crash.heap[id].Failure?)
  {
    hide Classified, Reachable, Closed;
    if end.Failed? {
      FindCauseDecides(end.crash.heap, end.crash.exc, (f: Failure) => f.NoException?);
    }
  }

  /** Some exception behind the failure, the failure included, satisfies the test. */
  ghost predicate Behind(c: Crash, test: Failure -> bool) {
    exists id :: id in c.heap && Reachable(c.heap, c.exc, id) && c.heap[id].Failure? && test(c.heap[id])
  }

  /**
   What a failure comes to, read off the exceptions: a tool loop anywhere behind it ends the run with 0, else its own
   name or text ends it with 75 for a rate limit and 78 for a refused login, else it is raised; and a fresh session is
   tried exactly when none of these holds and an invalid request lies behind it.
   */
  lemma FailureExactly(c: Crash, postFails: bool)
    requires !Broken(c)
    ensures var f := c.heap[c.exc];
            var loop := Behind(c, (e: Failure) => e.Failure? && e.isToolLoop);
            var limited := Contains(f.typeName, "ResourceExhausted") || Contains(f.text, "429");
            var refused := Contains(f.typeName, "Unauthenticated") || Contains(f.text, "401");
            var invalid := Behind(c, (e: Failure) => e.Failure? && Contains(e.text, "INVALID_ARGUMENT"));
            && ReasonOf(Failed(c)) ==
               Some(if loop then ToolLoop else if limited then RateLimited else if refused then Auth else CrashReason)
            && ExitOf(Failed(c), postFails) ==
               (if !loop && !limited && !refused then Raised(c) else if postFails then ReportRaised
                else Code(if loop then 0 else if limited then 75 else 78))
            && (Restartable(Failed(c)) <==> !loop && !limited && !refused && invalid)
  {
    hide Contains, Reachable, AnyInChain, Closed, ChainRaises;
    FindCauseDecides(c.heap, c.exc, (e: Failure) => e.Failure? && e.isToolLoop);
    FindCauseDecides(c.heap, c.exc, (e: Failure) => e.Failure? && Contains(e.text, "INVALID_ARGUMENT"));
  }

  /** The other ends of a session. */
  lemma OtherEnds(postFails: bool)
    ensures ReasonOf(Finished) == Some(Normal) && ExitOf(Finished, postFails) == (if postFails then ReportRaised else Code(0))
    ensures ReasonOf(Escaped) == None && ExitOf(Escaped, postFails) == Escapes
    ensures !Restartable(Finished) && !Restartable(Escaped)
  {
  }

  /** A rate-limit failure whose `error` attribute holds no exception is neither classified nor reported. */
  lemma UnwalkableIsNotReported()
    ensures var crash := CrashData(map[0 := Failure(None, None, Some(1), "ResourceExhausted", "", false), 1 := NoException], 0);
            Closed(crash.heap) && ReasonOf(Failed(crash)) == None && ExitOf(Failed(crash), false) == WalkRaised
  {
    hide Classified, Chain;
    var heap: Heap := map[0 := Failure(None, None, Some(1), "ResourceExhausted", "", false), 1 := NoException];
    assert Closed(heap);
    assert Linked(heap, 0, 1) by {
      assert Links(heap[0])[2] == Some(1);
    }
    assert IsPath(heap, [0, 1]);
    assert Reachable(heap, 0, 1) by {
      assert [0, 1][0] == 0 && [0, 1][1] == 1;
    }
    FindCauseDecides(heap, 0, (f: Failure) => f.NoException?);
  }

  lemma NoteIsFound(initial: string)
    ensures Contains(WithNote(initial), RESUME_NOTE)
  {
    hide RESUME_NOTE;
    if !Contains(initial, RESUME_NOTE) {
      var s := initial + RESUME_NOTE;
      assert s[|initial|..] == RESUME_NOTE;
    }
  }

  /** Two more sessions at most: the second after a restartable end of the first, the third after one of both. */
  lemma LastSessionExactly(w: World, initial: string)
    ensures LastSession(w, initial) ==
            if !Restartable(w.session(0, initial).end) then 0
            else if !Restartable(w.session(1, PromptOf(initial, 1)).end) then 1
            else 2
  {
  }

  /** Every prompt after the first holds the note: added at the end, unless it was there from the start. */
  lemma NoteOnce(initial: string, k: nat)
    requires k > 0
    ensures Contains(PromptOf(initial, k), RESUME_NOTE)
    ensures PromptOf(initial, k) == if Contains(initial, RESUME_NOTE) then initial else initial + RESUME_NOTE
  {
    hide RESUME_NOTE, Contains;
    NoteIsFound(initial);
  }

  /** Adding the note where it is missing takes each session's prompt to the next one's. */
  lemma NextPrompt(initial: string, k: nat)
    ensures PromptOf(initial, 0) == initial
    ensures WithNote(PromptOf(initial, k)) == PromptOf(initial, k + 1)
  {
    hide RESUME_NOTE, Contains;
    NoteIsFound(initial);
  }

  /** How the handler of a failed session fares: no exit code, one, or an exception of its own. */
  datatype Handling = Unclassified | Exits(code: int) | PostFails | WalkFails

  /** The run's mutable state: the usage dict, the prompts of the sessions started, the reports attempted. */
  class AgentRun {
    var usage: Usage
    var prompts: seq<string>
    var reports: seq<Report>

    constructor ()
      ensures usage == NO_USAGE && prompts == [] && reports == []
    {
      usage, prompts, reports := NO_USAGE, [], [];
    }

    method Accumulate(event: Event)
      modifies this`usage
      ensures usage == old(usage).Plus(EventUsage(event))
    {
      usage := usage.(turns := usage.turns + 1);
      if event.usage.Some? {
        var u := event.usage.value;
        usage := usage.(input := usage.input + u.prompt.GetOr(0));
        usage := usage.(output := usage.output + (u.candidates.GetOr(0) + u.thoughts.GetOr(0)));
        usage := usage.(cacheRead := usage.cacheRead + u.cached.GetOr(0));
      }
    }

    /** Drives one session to its end; the events before a failure count as well. */
    method RunSession(w: World, initial: string) returns (end: End)
      modifies this`usage, this`prompts
      ensures prompts == old(prompts) + [initial]
      ensures var s := w.session(|old(prompts)|, initial);
              end == s.end && usage == old(usage).Plus(TotalUsage(s.events))
    {
      hide EventUsage, Usage.Plus;
      var s := w.session(|prompts|, initial);
      prompts := prompts + [initial];
      PlusAssoc(usage, NO_USAGE, NO_USAGE);
      assert s.events[..0] == [];
      var i := 0;
      while i < |s.events|
        invariant 0 <= i <= |s.events|
        invariant usage == old(usage).Plus(TotalUsage(s.events[..i]))
        invariant prompts == old(prompts) + [initial]
      {
        TotalUsageNext(s.events, i);
        PlusAssoc(old(usage), TotalUsage(s.events[..i]), EventUsage(s.events[i]));
        Accumulate(s.events[i]);
        i := i + 1;
      }
      assert s.events[..i] == s.events;
      end := s.end;
    }

    method PostUsage(w: World, reason: Reason) returns (raised: bool)
      modifies this`reports
      ensures reports == old(reports) + [Report(usage, reason)] && raised == w.postFails
    {
      reports := reports + [Report(usage, reason)];
      raised := w.postFails;
    }

    /** Reports a classified failure and gives its exit code; does nothing for any other; raises where the walk does. */
    method ClassifiedExit(w: World, c: Crash) returns (h: Handling)
      modifies this`reports
      ensures Broken(c) ==> h == WalkFails && reports == old(reports)
      ensures !Broken(c) && Classified(c).None? ==> h == Unclassified && reports == old(reports)
      ensures !Broken(c) && Classified(c).Some? ==>
                && reports == old(reports) + [Report(usage, Classified(c).value.0)]
                && h == if w.postFails then PostFails else Exits(Classified(c).value.1)
    {
      if Broken(c) {
        return WalkFails;
      }
      if IsToolLoop(c) {
        var raised := PostUsage(w, ToolLoop);
        return if raised then PostFails else Exits(0);
      }
      var classified := Classify(c.heap[c.exc]);
      if classified.None? {
        return Unclassified;
      }
      var raised := PostUsage(w, if classified.value == RATE_LIMIT_EXIT then RateLimited else Auth);
      return if raised then PostFails else Exits(classified.value);
    }

    /**
     One run: at most three sessions, the resume note in every prompt after the first, and one usage report whose
     totals cover every event of every session, unless the last session ends in a way that is not reported.
     */
    method RunToExit(w: World, initialPrompt: string) returns (exit: Exit)
      requires usage == NO_USAGE && prompts == [] && reports == []
      modifies this
      ensures w.setupFails ==> exit == SetupRaised && prompts == [] && reports == []
      ensures !w.setupFails ==>
                var k := LastSession(w, initialPrompt);
                var end := SessionOf(w, initialPrompt, k).end;
                var total := TotalUsage(EventsOf(w, initialPrompt, k + 1));
                && |prompts| == k + 1 <= 3
                && (forall j | 0 <= j <= k :: prompts[j] == PromptOf(initialPrompt, j))
                && reports == (if ReasonOf(end).Some? then [Report(total, ReasonOf(end).value)] else [])
                && exit == ExitOf(end, w.postFails)
    {
      hide EventUsage, Usage.Plus, Contains, IsToolLoop, Classify, RESUME_NOTE, IsInvalidRequest, Classified, Closed, Broken,
        LastSession, PromptOf, EventsOf, TotalUsage;
      if w.setupFails {
        return SetupRaised;
      }
      var initial := initialPrompt;
      var restarts := 0;
      NextPrompt(initialPrompt, 0);
      TotalOfSessions(w, initialPrompt, 0);
      while true
        invariant restarts <= MODEL_RESTARTS && |prompts| == restarts
        invariant initial == PromptOf(initialPrompt, restarts)
        invariant forall j | 0 <= j < restarts :: prompts[j] == PromptOf(initialPrompt, j)
        invariant forall j | 0 <= j < restarts :: Restartable(SessionOf(w, initialPrompt, j).end)
        invariant usage == TotalUsage(EventsOf(w, initialPrompt, restarts)) && reports == []
        decreases MODEL_RESTARTS - restarts
      {
        TotalOfSessions(w, initialPrompt, restarts);
        var end := RunSession(w, initial);
        assert end == SessionOf(w, initialPrompt, restarts).end;
        if end.Finished? {
          LastIs(w, initialPrompt, restarts);
          break;
        }
        if !Restartable(end) || restarts == MODEL_RESTARTS {
          LastIs(w, initialPrompt, restarts);
        }
        if end.Escaped? {
          return Escapes;
        }
        var h := ClassifiedExit(w, end.crash);
        match h {
          case WalkFails => return WalkRaised;
          case PostFails => return ReportRaised;
          case Exits(code) => return Code(code);
          case Unclassified =>
        }
        if IsInvalidRequest(end.crash) && restarts < MODEL_RESTARTS {
          restarts := restarts + 1;
          NextPrompt(initialPrompt, restarts - 1);
          if !Contains(initial, RESUME_NOTE) {
            initial := initial + RESUME_NOTE;
          }
          continue;
        }
        var suppressed := PostUsage(w, CrashReason);
        return Raised(end.crash);
      }
      var raised := PostUsage(w, Normal);
      exit := if raised then ReportRaised else Code(0);
    }
  }
}
