/** robofleet/agent/adk_entry.py `_chain` and `_find_cause`: the exceptions behind an exception. */
module FailureChain {
  import opened OptionType

  /** Object identity of an exception. */
  type Id = nat

  /** An exception, or any other object that an exception's `error` attribute may hold. */
  datatype Failure =
    | Failure(
        cause: Option<Id>,
        context: Option<Id>,
        error: Option<Id>,
        typeName: string,
        text: string,
        isToolLoop: bool)
    | NoException

  /** The objects of a run; the links of each exception lead to objects of the run, cycles included. */
  type Heap = map<Id, Failure>

  predicate Known(heap: Heap, link: Option<Id>) {
    link.Some? ==> link.value in heap
  }

  /** What the walk follows; an object that is no exception has no cause to read. */
  function Links(f: Failure): seq<Option<Id>> {
    if f.NoException? then [] else [f.cause, f.context, f.error]
  }

  predicate Closed(heap: Heap) {
    forall id | id in heap && heap[id].Failure? ::
      Known(heap, heap[id].cause) && Known(heap, heap[id].context) && Known(heap, heap[id].error)
  }

  /** `b` is the cause, the context or the `error` attribute of the exception `a`. */
  predicate Linked(heap: Heap, a: Id, b: Id) {
    a in heap && heap[a].Failure? && (heap[a].cause == Some(b) || heap[a].context == Some(b) || heap[a].error == Some(b))
  }

  ghost predicate IsPath(heap: Heap, path: seq<Id>) {
    && path != []
    && forall i | 0 <= i < |path| - 1 :: Linked(heap, path[i], path[i + 1])
  }

  /** `b` is `a` or lies behind it through any number of cause, context and error links. */
  ghost predicate Reachable(heap: Heap, a: Id, b: Id) {
    exists path :: IsPath(heap, path) && path[0] == a && path[|path| - 1] == b
  }

  predicate Distinct(out: seq<Id>) {
    forall i, j | 0 <= i < j < |out| :: out[i] != out[j]
  }

  /** What the worklist still has to visit, depth first and the last link pushed first. */
  function Visit(heap: Heap, stack: seq<Option<Id>>, seen: set<Id>): (out: seq<Id>)
    requires Closed(heap) && forall l | l in stack :: Known(heap, l)
    ensures forall id | id in out :: id in heap && id !in seen
    decreases |heap.Keys - seen|, |stack|
  {
    if stack == [] then []
    else
      var top, rest := stack[|stack| - 1], stack[..|stack| - 1];
      if top.None? || top.value in seen then Visit(heap, rest, seen)
      else
        var id := top.value;
        assert top in stack && Known(heap, top);
        SeenGrows(heap.Keys, seen, id);
        [id] + Visit(heap, rest + Links(heap[id]), seen + {id})
  }

  lemma SeenGrows(keys: set<Id>, seen: set<Id>, id: Id)
    requires id in keys && id !in seen
    ensures |keys - (seen + {id})| < |keys - seen|
  {
    assert keys - seen == (keys - (seen + {id})) + {id};
  }

  /** One turn of the worklist loop. */
  lemma VisitPop(heap: Heap, stack: seq<Option<Id>>, seen: set<Id>)
    requires Closed(heap) && stack != [] && forall l | l in stack :: Known(heap, l)
    ensures var top, rest := stack[|stack| - 1], stack[..|stack| - 1];
            && (forall l | l in rest :: Known(heap, l))
            && (top.None? || top.value in seen ==> Visit(heap, stack, seen) == Visit(heap, rest, seen))
            && (top.Some? && top.value !in seen ==>
                  && top.value in heap
                  && (forall l | l in rest + Links(heap[top.value]) :: Known(heap, l))
                  && Visit(heap, stack, seen) ==
                     [top.value] + Visit(heap, rest + Links(heap[top.value]), seen + {top.value}))
  {
    var top := stack[|stack| - 1];
    assert top in stack && Known(heap, top);
  }

  lemma VisitNothing(heap: Heap, seen: set<Id>)
    requires Closed(heap)
    ensures Visit(heap, [], seen) == []
  {
  }

  function Chain(heap: Heap, exc: Id): seq<Id>
    requires Closed(heap) && exc in heap
  {
    Visit(heap, [Some(exc)], {})
  }

  /** The walk meets an object that is no exception, and raises at reading its cause. */
  predicate ChainRaises(heap: Heap, exc: Id)
    requires Closed(heap) && exc in heap
  {
    exists id | id in Chain(heap, exc) :: heap[id].NoException?
  }

  /** The source's loop over an explicit stack; it raises exactly when something reachable is no exception. */
  method ComputeChain(heap: Heap, exc: Id) returns (out: seq<Id>, raised: bool)
    requires Closed(heap) && exc in heap
    ensures raised <==> exists id :: id in heap && Reachable(heap, exc, id) && heap[id].NoException?
    ensures raised == ChainRaises(heap, exc)
    ensures !raised ==> out == Chain(heap, exc) && Distinct(out)
    ensures !raised ==> forall id :: id in out <==> Reachable(heap, exc, id)
  {
    hide Links, Visit, Distinct, Reachable, Chain;
    ChainExact(heap, exc);
    ChainIsVisit(heap, exc);
    var seen: set<Id> := {};
    out := [];
    var stack: seq<Option<Id>> := [Some(exc)];
    while stack != []
      invariant forall l | l in stack :: Known(heap, l)
      invariant out + Visit(heap, stack, seen) == Chain(heap, exc)
      invariant forall id | id in out :: id in heap && heap[id].Failure?
      decreases |heap.Keys - seen|, |stack|
    {
      VisitPop(heap, stack, seen);
      ghost var ahead := Visit(heap, stack, seen);
      var e := stack[|stack| - 1];
      stack := stack[..|stack| - 1];
      if e.Some? && e.value !in seen {
        SeenGrows(heap.Keys, seen, e.value);
        if heap[e.value].NoException? {
          assert e.value == ahead[0] && e.value in out + ahead;
          return out, true;
        }
        seen := seen + {e.value};
        out := out + [e.value];
        stack := stack + Links(heap[e.value]);
      }
    }
    VisitNothing(heap, seen);
    assert out == Chain(heap, exc);
    raised := false;
  }

  lemma ChainIsVisit(heap: Heap, exc: Id)
    requires Closed(heap) && exc in heap
    ensures Chain(heap, exc) == Visit(heap, [Some(exc)], {})
    ensures forall id | id in Chain(heap, exc) :: id in heap
  {
    hide Visit;
  }

  lemma {:induction false} VisitDistinct(heap: Heap, stack: seq<Option<Id>>, seen: set<Id>)
    requires Closed(heap) && forall l | l in stack :: Known(heap, l)
    ensures Distinct(Visit(heap, stack, seen))
    decreases |heap.Keys - seen|, |stack|
  {
    if stack != [] {
      var top, rest := stack[|stack| - 1], stack[..|stack| - 1];
      assert top in stack;
      if top.None? || top.value in seen {
        VisitDistinct(heap, rest, seen);
      } else {
        var id := top.value;
        SeenGrows(heap.Keys, seen, id);
        VisitDistinct(heap, rest + Links(heap[id]), seen + {id});
      }
    }
  }

  /** Everything on the stack is visited now or was seen before. */
  lemma {:induction false} VisitCovers(heap: Heap, stack: seq<Option<Id>>, seen: set<Id>)
    requires Closed(heap) && forall l | l in stack :: Known(heap, l)
    ensures forall l | l in stack && l.Some? :: l.value in Visit(heap, stack, seen) || l.value in seen
    decreases |heap.Keys - seen|, |stack|
  {
    if stack != [] {
      var top, rest := stack[|stack| - 1], stack[..|stack| - 1];
      assert forall l | l in stack :: l in rest || l == top;
      assert top in stack;
      if top.None? || top.value in seen {
        VisitCovers(heap, rest, seen);
      } else {
        var id := top.value;
        var next := rest + Links(heap[id]);
        SeenGrows(heap.Keys, seen, id);
        VisitCovers(heap, next, seen + {id});
        assert forall l | l in rest :: l in next;
      }
    }
  }

  /** Every link of a visited node is visited now or was seen before. */
  lemma {:induction false} VisitCloses(heap: Heap, stack: seq<Option<Id>>, seen: set<Id>)
    requires Closed(heap) && forall l | l in stack :: Known(heap, l)
    ensures var out := Visit(heap, stack, seen);
            forall a, b | a in out && Linked(heap, a, b) :: b in out || b in seen
    decreases |heap.Keys - seen|, |stack|
  {
    if stack != [] {
      var top, rest := stack[|stack| - 1], stack[..|stack| - 1];
      assert top in stack;
      if top.None? || top.value in seen {
        VisitCloses(heap, rest, seen);
      } else {
        var id := top.value;
        var next := rest + Links(heap[id]);
        SeenGrows(heap.Keys, seen, id);
        VisitCloses(heap, next, seen + {id});
        VisitCovers(heap, next, seen + {id});
        assert forall l | l in Links(heap[id]) :: l in next;
      }
    }
  }

  lemma ReachStep(heap: Heap, a: Id, b: Id, c: Id)
    requires Reachable(heap, a, b) && Linked(heap, b, c)
    ensures Reachable(heap, a, c)
  {
    var path :| IsPath(heap, path) && path[0] == a && path[|path| - 1] == b;
    assert IsPath(heap, path + [c]);
  }

  lemma {:induction false} VisitReachable(heap: Heap, root: Id, stack: seq<Option<Id>>, seen: set<Id>)
    requires Closed(heap) && forall l | l in stack :: Known(heap, l)
    requires forall l | l in stack && l.Some? :: Reachable(heap, root, l.value)
    ensures forall id | id in Visit(heap, stack, seen) :: Reachable(heap, root, id)
    decreases |heap.Keys - seen|, |stack|
  {
    hide Reachable;
    if stack != [] {
      var top, rest := stack[|stack| - 1], stack[..|stack| - 1];
      if top.None? || top.value in seen {
        VisitReachable(heap, root, rest, seen);
      } else {
        var id := top.value;
        assert top in stack;
        SeenGrows(heap.Keys, seen, id);
        forall c | Linked(heap, id, c)
          ensures Reachable(heap, root, c)
        {
          ReachStep(heap, root, id, c);
        }
        VisitReachable(heap, root, rest + Links(heap[id]), seen + {id});
      }
    }
  }

  lemma {:induction false} PathStays(heap: Heap, path: seq<Id>, s: seq<Id>)
    requires IsPath(heap, path) && path[0] in s
    requires forall a, b | a in s && Linked(heap, a, b) :: b in s
    ensures path[|path| - 1] in s
  {
    if |path| > 1 {
      var shorter := path[..|path| - 1];
      PathStays(heap, shorter, s);
      assert Linked(heap, path[|path| - 2], path[|path| - 1]);
    }
  }

  /** The chain lists each exception once, and lists exactly the reachable ones, whatever the cycles. */
  lemma ChainExact(heap: Heap, exc: Id)
    requires Closed(heap) && exc in heap
    ensures Distinct(Chain(heap, exc))
    ensures forall id :: id in Chain(heap, exc) <==> Reachable(heap, exc, id)
  {
    var stack := [Some(exc)];
    var out := Chain(heap, exc);
    VisitDistinct(heap, stack, {});
    VisitCovers(heap, stack, {});
    assert Some(exc) in stack;
    VisitCloses(heap, stack, {});
    assert IsPath(heap, [exc]);
    VisitReachable(heap, exc, stack, {});
    forall id | Reachable(heap, exc, id)
      ensures id in out
    {
      var path :| IsPath(heap, path) && path[0] == exc && path[|path| - 1] == id;
      PathStays(heap, path, out);
    }
  }

  /** `any(test(e) for e in _chain(exc))`, where the chain can be walked. */
  predicate AnyInChain(heap: Heap, exc: Id, test: Failure -> bool)
    requires Closed(heap) && exc in heap
  {
    var out := Chain(heap, exc);
    exists i | 0 <= i < |out| :: test(heap[out[i]])
  }

  /** Walking the chain decides whether a matching exception is reachable; it raises if anything reachable is none. */
  lemma FindCauseDecides(heap: Heap, exc: Id, test: Failure -> bool)
    requires Closed(heap) && exc in heap
    ensures AnyInChain(heap, exc, test) <==> exists id :: id in heap && Reachable(heap, exc, id) && test(heap[id])
    ensures ChainRaises(heap, exc) <==> exists id :: id in heap && Reachable(heap, exc, id) && heap[id].NoException?
  {
    ChainExact(heap, exc);
    var out := Chain(heap, exc);
    if id :| id in heap && Reachable(heap, exc, id) && test(heap[id]) {
      assert id in out;
    }
  }
}
