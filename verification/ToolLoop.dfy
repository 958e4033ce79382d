/** robofleet/agent/adk_entry.py `_on_after_tool`: the breaker for one tool rejecting call after call. */
module ToolLoop {
  import opened OptionType

  const LOOP_WARN_AT := 6
  const LOOP_HALT_AT := 12

  /** A value in a tool response, as far as the breaker looks; `Warning` is the text it adds itself. */
  datatype Value = Str(text: string) | Warning(tool: string, rejections: nat) | Other(truthy: bool)

  predicate Truthy(v: Value) {
    match v
    case Str(text) => text != ""
    case Warning(_, _) => true
    case Other(truthy) => truthy
  }

  datatype Response = NotADict | Dict(fields: map<string, Value>)

  predicate IsErrorResponse(r: Response) {
    r.Dict? && (
      || ("error" in r.fields && Truthy(r.fields["error"]))
      || ("status" in r.fields && r.fields["status"] == Str("error")))
  }

  /** Which responses are rejections: those with a true `error`, and those whose `status` is the text `error`. */
  lemma ErrorExactly(r: Response)
    ensures IsErrorResponse(r) <==>
            && r.Dict?
            && (|| ("error" in r.fields && r.fields["error"] !in [Str(""), Other(false)])
                || ("status" in r.fields && r.fields["status"] == Str("error")))
  {
  }

  /** A warning added to a response leaves it a rejection, or leaves it none. */
  lemma WarningKeepsError(fields: map<string, Value>, warning: Value)
    ensures IsErrorResponse(Dict(fields["loop_warning" := warning])) <==> IsErrorResponse(Dict(fields))
  {
    assert "loop_warning"[0] != "error"[0] && "loop_warning"[0] != "status"[0];
  }

  datatype Call = Call(tool: string, response: Response)

  /** What the callback does: leave the response, replace it, or raise `ToolLoopError`. */
  datatype Verdict = Leave | Replace(fields: map<string, Value>) | Cut(tool: string, rejections: nat)

  /** The module-level `_loop` dict and the callback that updates it. */
  class Breaker {
    var tool: Option<string>
    var count: nat

    constructor ()
      ensures tool == None && count == 0
    {
      tool, count := None, 0;
    }

    method OnAfterTool(call: Call, ghost history: seq<Call>) returns (v: Verdict)
      requires count == Streak(history) && tool == StreakTool(history)
      modifies this
      ensures count == Streak(history + [call]) && tool == StreakTool(history + [call])
      ensures v == VerdictAfter(history + [call])
    {
      StreakGrows(history, call);
      if !IsErrorResponse(call.response) {
        tool, count := None, 0;
        return Leave;
      }
      count := if tool == Some(call.tool) then count + 1 else 1;
      tool := Some(call.tool);
      if count >= LOOP_HALT_AT {
        return Cut(call.tool, count);
      }
      if count >= LOOP_WARN_AT {
        return Replace(call.response.fields["loop_warning" := Warning(call.tool, count)]);
      }
      return Leave;
    }
  }

  /** The last `n` calls are rejections by the tool of the last one. */
  predicate ErrorTail(h: seq<Call>, n: nat) {
    && n <= |h|
    && forall i | |h| - n <= i < |h| :: IsErrorResponse(h[i].response) && h[i].tool == h[|h| - 1].tool
  }

  /** Length of the longest such tail, found by looking back. */
  function Streak(h: seq<Call>): (n: nat)
    ensures n <= |h| && ErrorTail(h, n)
    ensures forall k: nat | ErrorTail(h, k) :: k <= n
  {
    LongestFrom(h, 0)
  }

  function LongestFrom(h: seq<Call>, n: nat): (m: nat)
    requires ErrorTail(h, n)
    ensures ErrorTail(h, m)
    ensures forall k: nat | ErrorTail(h, k) :: k <= m
    decreases |h| - n
  {
    if n < |h| && ErrorTail(h, n + 1) then LongestFrom(h, n + 1)
    else
      TailsNest(h, n);
      n
  }

  /** A tail that cannot be extended by one call cannot be extended by more. */
  lemma TailsNest(h: seq<Call>, n: nat)
    requires ErrorTail(h, n) && !(n < |h| && ErrorTail(h, n + 1))
    ensures forall k: nat | ErrorTail(h, k) :: k <= n
  {
    forall k: nat | ErrorTail(h, k)
      ensures k <= n
    {
      if k > n {
        assert ErrorTail(h, n + 1);
      }
    }
  }

  function StreakTool(h: seq<Call>): Option<string> {
    if Streak(h) == 0 then None else Some(h[|h| - 1].tool)
  }

  /** The answer to the last call of a history: none below 6 rejections in a row, a warning from 6 to 11, a cut from 12. */
  function VerdictAfter(h: seq<Call>): Verdict
    requires h != []
  {
    var n, last := Streak(h), h[|h| - 1];
    if n >= LOOP_HALT_AT then Cut(last.tool, n)
    else if n >= LOOP_WARN_AT then Replace(last.response.fields["loop_warning" := Warning(last.tool, n)])
    else Leave
  }

  lemma TailShortens(h: seq<Call>, n: nat, m: nat)
    requires m <= n && ErrorTail(h, n)
    ensures ErrorTail(h, m)
  {
    hide IsErrorResponse;
  }

  /**
   Read off the history: a call is cut when it and the eleven before it are rejections by one tool, and warned when it
   and the five before it are and no cut is due; a warning adds one field to the response and keeps the others.
   */
  lemma VerdictByTail(h: seq<Call>)
    requires h != []
    ensures VerdictAfter(h).Cut? <==> ErrorTail(h, 12)
    ensures VerdictAfter(h).Replace? <==> ErrorTail(h, 6) && !ErrorTail(h, 12)
    ensures VerdictAfter(h).Replace? ==>
              && VerdictAfter(h).fields - {"loop_warning"} == h[|h| - 1].response.fields - {"loop_warning"}
              && VerdictAfter(h).fields["loop_warning"] == Warning(h[|h| - 1].tool, Streak(h))
  {
    hide LongestFrom, ErrorTail;
    var n := Streak(h);
    if n >= 6 {
      TailShortens(h, n, 6);
    }
    if n >= 12 {
      TailShortens(h, n, 12);
    }
  }

  lemma StreakIs(h: seq<Call>, n: nat)
    requires ErrorTail(h, n) && !(n < |h| && ErrorTail(h, n + 1))
    ensures Streak(h) == n
  {
    TailsNest(h, n);
  }

  lemma EmptyTail(h: seq<Call>)
    ensures ErrorTail(h, 0)
  {
  }

  /** A tail of the longer history is the new rejection, with a tail of the old one by the same tool before it. */
  lemma TailGrows(h: seq<Call>, call: Call, n: nat)
    ensures ErrorTail(h + [call], n + 1) <==>
            && n <= |h| && IsErrorResponse(call.response)
            && (n > 0 ==> ErrorTail(h, n) && h[|h| - 1].tool == call.tool)
  {
    hide IsErrorResponse;
    var g := h + [call];
    assert g[|h|] == call && forall i | 0 <= i < |h| :: g[i] == h[i];
    assert |h| > 0 ==> g[|h| - 1] == h[|h| - 1];
  }

  /** One more call resets the streak, extends it, or starts a new one: the counter can be kept incrementally. */
  lemma StreakGrows(h: seq<Call>, call: Call)
    ensures Streak(h + [call]) ==
            if !IsErrorResponse(call.response) then 0
            else if StreakTool(h) == Some(call.tool) then Streak(h) + 1
            else 1
  {
    hide LongestFrom, ErrorTail, IsErrorResponse;
    var g, n := h + [call], Streak(h);
    EmptyTail(g);
    TailGrows(h, call, 0);
    if !IsErrorResponse(call.response) {
      StreakIs(g, 0);
    } else if StreakTool(h) == Some(call.tool) {
      TailGrows(h, call, n);
      TailGrows(h, call, n + 1);
      StreakIs(g, n + 1);
    } else {
      TailGrows(h, call, 1);
      StreakIs(g, 1);
    }
  }

  /** No call of the history was cut. */
  predicate Uncut(h: seq<Call>) {
    forall k | 0 < k <= |h| :: !VerdictAfter(h[..k]).Cut?
  }

  /** Twelve rejections by one tool in a row, starting at `i`. */
  predicate Window(h: seq<Call>, i: nat) {
    && i + LOOP_HALT_AT <= |h|
    && forall j | i <= j < i + LOOP_HALT_AT :: IsErrorResponse(h[j].response) && h[j].tool == h[i].tool
  }

  lemma WindowCuts(h: seq<Call>, i: nat)
    requires Window(h, i)
    ensures VerdictAfter(h[..i + LOOP_HALT_AT]).Cut?
  {
    hide LongestFrom, IsErrorResponse;
    var g := h[..i + LOOP_HALT_AT];
    assert forall j | i <= j < |g| :: g[j] == h[j];
    assert ErrorTail(g, LOOP_HALT_AT);
  }

  lemma CutHasWindow(h: seq<Call>, k: nat)
    requires 0 < k <= |h| && VerdictAfter(h[..k]).Cut?
    ensures k >= LOOP_HALT_AT && Window(h, k - LOOP_HALT_AT)
  {
    hide LongestFrom, IsErrorResponse;
    var g := h[..k];
    assert forall j | 0 <= j < k :: g[j] == h[j];
  }

  /** A run goes uncut exactly as long as no twelve rejections by one tool stand in a row. */
  lemma UncutIffNoWindow(h: seq<Call>)
    ensures Uncut(h) <==> forall i: nat :: !Window(h, i)
  {
    hide VerdictAfter;
    if i: nat :| Window(h, i) {
      WindowCuts(h, i);
    }
    if !Uncut(h) {
      var k :| 0 < k <= |h| && VerdictAfter(h[..k]).Cut?;
      CutHasWindow(h, k);
    }
  }
}
