/** robofleet/agent_sdk/transcript_usage.py: token totals of a transcript, each message counted once. */
module TranscriptUsage {

  /** A usage field: what `int()` makes of it, junk it refuses (counted as zero), or an infinity, which escapes. */
  datatype Field = Number(n: int) | Junk | Infinity

  /** A message id: missing or null, usable as a set element, or not. */
  datatype Id = NoId | Known(id: string) | Unhashable

  /**
   A transcript line, as far as its JSON goes; `Undecodable` is one on which the decoder raises something other than an
   error of value or type, as it does when the line is nested too deeply.
   */
  datatype Line =
    | Blank
    | Malformed
    | Undecodable
    | NotAnObject
    | NoUsage
    | Message(id: Id, input: Field, output: Field, cacheRead: Field, cacheWrite: Field)

  datatype Counts = Counts(input: int, output: int, cacheRead: int, cacheWrite: int) {
    function Plus(c: Counts): Counts {
      Counts(input + c.input, output + c.output, cacheRead + c.cacheRead, cacheWrite + c.cacheWrite)
    }
  }

  const ZERO := Counts(0, 0, 0, 0)

  function Coerce(f: Field): int {
    if f.Number? then f.n else 0
  }

  /** Reading the line raises: it cannot be decoded, or its JSON is no object, or a count is infinite, or its id cannot be put in a set. */
  predicate Bad(l: Line) {
    l.Undecodable? || l.NotAnObject? ||
    (l.Message? && (l.id.Unhashable? || Infinity in [l.input, l.output, l.cacheRead, l.cacheWrite]))
  }

  function Deltas(l: Line): Counts {
    if l.Message? then Counts(Coerce(l.input), Coerce(l.output), Coerce(l.cacheRead), Coerce(l.cacheWrite)) else ZERO
  }

  function Ids(l: Line): set<string> {
    if l.Message? && l.id.Known? then {l.id.id} else {}
  }

  /** The line repeats a message that was counted before. */
  predicate Repeats(l: Line, seen: set<string>) {
    l.Message? && l.id.Known? && l.id.id in seen
  }

  /** What the lines add, given the ids counted before them. */
  function Total(lines: seq<Line>, seen: set<string>): Counts {
    if lines == [] then ZERO
    else (if Repeats(lines[0], seen) then ZERO else Deltas(lines[0])).Plus(Total(lines[1..], seen + Ids(lines[0])))
  }

  function SeenAfter(lines: seq<Line>, seen: set<string>): set<string> {
    if lines == [] then seen else SeenAfter(lines[1..], seen + Ids(lines[0]))
  }

  lemma TotalStep(lines: seq<Line>, i: nat, seen: set<string>)
    requires i < |lines|
    ensures var l := lines[i];
            && SeenAfter(lines[i..], seen) == SeenAfter(lines[i + 1..], seen + Ids(l))
            && (!l.Message? || Repeats(l, seen) ==>
                  seen + Ids(l) == seen && Total(lines[i..], seen) == Total(lines[i + 1..], seen))
            && (l.Message? && !Repeats(l, seen) ==>
                  Total(lines[i..], seen) == Deltas(l).Plus(Total(lines[i + 1..], seen + Ids(l))))
  {
    hide Deltas, Counts.Plus;
    var l := lines[i];
    assert lines[i..][1..] == lines[i + 1..];
    if !l.Message? || Repeats(l, seen) {
      assert seen + Ids(l) == seen;
      assert Repeats(l, seen) || Deltas(l) == ZERO by { OneLine(l, seen); }
      PlusLaws(Total(lines[i + 1..], seen), ZERO, ZERO);
    }
  }

  lemma NothingLeft(seen: set<string>)
    ensures Total([], seen) == ZERO && SeenAfter([], seen) == seen
  {
  }

  datatype Outcome = Sums(counts: Counts, turns: nat) | Raises

  /** What a whole transcript amounts to. */
  function Summed(lines: seq<Line>): Outcome {
    if exists i | 0 <= i < |lines| :: Bad(lines[i]) then Raises
    else Sums(Total(lines, {}), |SeenAfter(lines, {})|)
  }

  /** The source's loop over the open file. */
  method SumTranscriptUsage(lines: seq<Line>) returns (r: Outcome)
    ensures r == Summed(lines)
    ensures r.Raises? <==> exists i :: 0 <= i < |lines| && Bad(lines[i])
    ensures r.Sums? ==> r.counts == Total(lines, {}) && r.turns == |SeenAfter(lines, {})|
  {
    hide Total, SeenAfter, Coerce;
    var tin, tout, tcr, tcw := 0, 0, 0, 0;
    assert lines[0..] == lines;
    var seen: set<string> := {};
    var i := 0;
    while i < |lines|
      invariant 0 <= i <= |lines|
      invariant forall j | 0 <= j < i :: !Bad(lines[j])
      invariant Counts(tin, tout, tcr, tcw).Plus(Total(lines[i..], seen)) == Total(lines, {})
      invariant SeenAfter(lines[i..], seen) == SeenAfter(lines, {})
    {
      var l := lines[i];
      TotalStep(lines, i, seen);
      if Bad(l) {
        return Raises;
      }
      i := i + 1;
      if !l.Message? {
        continue;
      }
      ghost var ids := seen + Ids(l);
      if l.id.Known? {
        if l.id.id in seen {
          continue;
        }
        seen := seen + {l.id.id};
      }
      assert seen == ids;
      tin := tin + Coerce(l.input);
      tout := tout + Coerce(l.output);
      tcr := tcr + Coerce(l.cacheRead);
      tcw := tcw + Coerce(l.cacheWrite);
    }
    assert Total(lines[i..], seen) == ZERO && SeenAfter(lines[i..], seen) == seen by {
      assert lines[i..] == [];
      NothingLeft(seen);
    }
    r := Sums(Counts(tin, tout, tcr, tcw), |seen|);
  }

  // ---- What the totals are ----

  lemma PlusLaws(a: Counts, b: Counts, c: Counts)
    ensures a.Plus(b).Plus(c) == a.Plus(b.Plus(c)) && a.Plus(b) == b.Plus(a)
    ensures a.Plus(ZERO) == a && ZERO.Plus(a) == a
  {
  }

  /** The first line that carries its id, among lines and ids counted before. */
  predicate FirstOfId(lines: seq<Line>, seen: set<string>, i: nat)
    requires i < |lines|
  {
    lines[i].Message? && lines[i].id.Known? && lines[i].id.id !in seen &&
    forall j | 0 <= j < i :: lines[j].Message? ==> lines[j].id != lines[i].id
  }

  predicate Counted(lines: seq<Line>, seen: set<string>, i: nat)
    requires i < |lines|
  {
    (lines[i].Message? && !lines[i].id.Known?) || FirstOfId(lines, seen, i)
  }

  /** Sum over the counted positions below `n`. */
  function SumCounted(lines: seq<Line>, seen: set<string>, n: nat): Counts
    requires n <= |lines|
  {
    if n == 0 then ZERO
    else SumCounted(lines, seen, n - 1).Plus(if Counted(lines, seen, n - 1) then Deltas(lines[n - 1]) else ZERO)
  }

  /** Totals over two stretches add up, the second knowing the ids of the first. */
  lemma {:induction false} TotalAppend(a: seq<Line>, b: seq<Line>, seen: set<string>)
    ensures Total(a + b, seen) == Total(a, seen).Plus(Total(b, SeenAfter(a, seen)))
    ensures SeenAfter(a + b, seen) == SeenAfter(b, SeenAfter(a, seen))
  {
    hide Counts.Plus, Deltas, Repeats, Ids;
    if a == [] {
      assert a + b == b;
      PlusLaws(Total(b, seen), ZERO, ZERO);
    } else {
      assert (a + b)[1..] == a[1..] + b;
      var s := seen + Ids(a[0]);
      TotalAppend(a[1..], b, s);
      PlusLaws(if Repeats(a[0], seen) then ZERO else Deltas(a[0]), Total(a[1..], s), Total(b, SeenAfter(a[1..], s)));
    }
  }

  lemma {:induction false} SeenAfterIs(lines: seq<Line>, seen: set<string>)
    ensures forall id :: id in SeenAfter(lines, seen) <==>
              id in seen || exists i :: 0 <= i < |lines| && lines[i].Message? && lines[i].id == Known(id)
  {
    if lines != [] {
      SeenAfterIs(lines[1..], seen + Ids(lines[0]));
      forall id | id in seen || exists i :: 0 <= i < |lines| && lines[i].Message? && lines[i].id == Known(id)
        ensures id in SeenAfter(lines, seen)
      {
        if id !in seen + Ids(lines[0]) {
          var i :| 0 <= i < |lines| && lines[i].Message? && lines[i].id == Known(id);
          assert lines[1..][i - 1] == lines[i];
        }
      }
    }
  }

  /** The totals are the sum over the lines without an id and the first line of each id, whatever stands between. */
  lemma {:induction false} TotalIsSumOfCounted(lines: seq<Line>, seen: set<string>, n: nat)
    requires n <= |lines|
    requires forall i | 0 <= i < |lines| :: !Bad(lines[i])
    ensures Total(lines[..n], seen) == SumCounted(lines, seen, n)
  {
    hide Counts.Plus, Deltas, Repeats, Counted, Bad, SeenAfter;
    if n > 0 {
      var before, l := lines[..n - 1], lines[n - 1];
      TotalIsSumOfCounted(lines, seen, n - 1);
      assert lines[..n] == before + [l];
      TotalAppend(before, [l], seen);
      OneLine(l, SeenAfter(before, seen));
      CountedIffNew(lines, seen, n - 1);
    }
  }

  lemma OneLine(l: Line, seen: set<string>)
    ensures Total([l], seen) == if Repeats(l, seen) then ZERO else Deltas(l)
    ensures !l.Message? ==> Deltas(l) == ZERO
  {
    assert [l][1..] == [];
    PlusLaws(Deltas(l), ZERO, ZERO);
  }

  lemma CountedIffNew(lines: seq<Line>, seen: set<string>, i: nat)
    requires i < |lines|
    ensures lines[i].Message? ==> (Counted(lines, seen, i) <==> !Repeats(lines[i], SeenAfter(lines[..i], seen)))
    ensures !lines[i].Message? ==> !Counted(lines, seen, i) && !Repeats(lines[i], SeenAfter(lines[..i], seen))
  {
    SeenAfterIs(lines[..i], seen);
    assert forall j | 0 <= j < i :: lines[..i][j] == lines[j];
  }

  /** One line that is JSON but no object loses the counts of every line before it. */
  lemma OneLineLosesTheCount(n: int)
    ensures var good := Message(Known("m"), Number(n), Junk, Junk, Junk);
            Summed([good]) == Sums(Counts(n, 0, 0, 0), 1) && Summed([good, NotAnObject]) == Raises
  {
    var good := Message(Known("m"), Number(n), Junk, Junk, Junk);
    OneLine(good, {});
    assert [good][1..] == [] && SeenAfter([good], {}) == {"m"};
    assert Bad([good, NotAnObject][1]);
  }

  datatype Counter = InputTokens | OutputTokens | CacheReads | CacheWrites

  /** What a line's field for the counter reads as: its number, and zero for junk. */
  function Reading(l: Line, k: Counter): int {
    if !l.Message? then 0
    else
      var f := match k {
        case InputTokens => l.input
        case OutputTokens => l.output
        case CacheReads => l.cacheRead
        case CacheWrites => l.cacheWrite
      };
      if f.Number? then f.n else 0
  }

  function SumOfReadings(lines: seq<Line>, k: Counter, n: nat): int
    requires n <= |lines|
  {
    if n == 0 then 0
    else SumOfReadings(lines, k, n - 1) + if Counted(lines, {}, n - 1) then Reading(lines[n - 1], k) else 0
  }

  lemma {:induction false} SumsByCounter(lines: seq<Line>, n: nat)
    requires n <= |lines|
    ensures SumCounted(lines, {}, n) ==
            Counts(SumOfReadings(lines, InputTokens, n), SumOfReadings(lines, OutputTokens, n),
                   SumOfReadings(lines, CacheReads, n), SumOfReadings(lines, CacheWrites, n))
  {
    hide Counted;
    if n > 0 {
      SumsByCounter(lines, n - 1);
    }
  }

  lemma BadExactly(l: Line)
    ensures Bad(l) <==>
            || l.Undecodable? || l.NotAnObject?
            || (l.Message? && (|| l.id.Unhashable? || l.input.Infinity? || l.output.Infinity?
                               || l.cacheRead.Infinity? || l.cacheWrite.Infinity?))
  {
    if l.Message? {
      assert l.input in [l.input, l.output, l.cacheRead, l.cacheWrite];
      assert l.output in [l.input, l.output, l.cacheRead, l.cacheWrite];
    }
  }

  /**
   The whole sum: it raises exactly when a line cannot be decoded, is JSON but no object, or carries an id that cannot
   be hashed or an infinite count, repeated or not; otherwise each of the four totals is the sum of its own field over
   the counted lines, and the turns are the distinct ids.
   */
  lemma CountersAreSums(lines: seq<Line>)
    ensures Summed(lines).Raises? <==>
            exists l :: l in lines &&
              (|| l.Undecodable? || l.NotAnObject?
               || (l.Message? && (|| l.id.Unhashable? || l.input.Infinity? || l.output.Infinity?
                                  || l.cacheRead.Infinity? || l.cacheWrite.Infinity?)))
    ensures var n := |lines|;
            Summed(lines).Sums? ==>
              && Summed(lines).counts ==
                 Counts(SumOfReadings(lines, InputTokens, n), SumOfReadings(lines, OutputTokens, n),
                        SumOfReadings(lines, CacheReads, n), SumOfReadings(lines, CacheWrites, n))
              && Summed(lines).turns == |set l | l in lines && l.Message? && l.id.Known? :: l.id.id|
  {
    hide Bad, Total, SeenAfter, SumCounted, SumOfReadings;
    forall l
      ensures Bad(l) <==>
              || l.Undecodable? || l.NotAnObject?
              || (l.Message? && (|| l.id.Unhashable? || l.input.Infinity? || l.output.Infinity?
                                 || l.cacheRead.Infinity? || l.cacheWrite.Infinity?))
    {
      BadExactly(l);
    }
    assert forall i | 0 <= i < |lines| :: lines[i] in lines;
    if Summed(lines).Sums? {
      assert lines[..|lines|] == lines;
      TotalIsSumOfCounted(lines, {}, |lines|);
      SumsByCounter(lines, |lines|);
      SeenIsIds(lines);
    }
  }

  lemma SeenIsIds(lines: seq<Line>)
    ensures SeenAfter(lines, {}) == set l | l in lines && l.Message? && l.id.Known? :: l.id.id
  {
    hide SeenAfter;
    SeenAfterIs(lines, {});
    var ids := set l | l in lines && l.Message? && l.id.Known? :: l.id.id;
    forall id
      ensures id in SeenAfter(lines, {}) <==> id in ids
    {
      if i :| 0 <= i < |lines| && lines[i].Message? && lines[i].id == Known(id) {
        assert lines[i] in lines && lines[i].id.id == id;
      }
      if l :| l in lines && l.Message? && l.id.Known? && l.id.id == id {
        var i :| 0 <= i < |lines| && lines[i] == l;
      }
    }
  }

  lemma RemoveOne(a: seq<Line>, b: seq<Line>, i: nat)
    requires a != [] && i < |b| && b[i] == a[0] && multiset(a) == multiset(b)
    ensures multiset(a[1..]) == multiset(b[..i] + b[i + 1..])
  {
    assert a == [a[0]] + a[1..];
    assert b == b[..i] + [b[i]] + b[i + 1..];
    var x, y := b[..i], b[i + 1..];
    assert multiset(x + y) == multiset(x) + multiset(y);
    assert multiset(a) - multiset{a[0]} == multiset(a[1..]);
    assert multiset(b) - multiset{a[0]} == multiset(x) + multiset(y) by {
      assert multiset(b) == multiset(x) + multiset{b[i]} + multiset(y);
    }
  }

  /** A line whose id was counted before can be dropped anywhere. */
  lemma RepeatsAddNothing(a: seq<Line>, l: Line, b: seq<Line>, seen: set<string>)
    requires Repeats(l, SeenAfter(a, seen))
    ensures Total(a + [l] + b, seen) == Total(a + b, seen) && SeenAfter(a + [l] + b, seen) == SeenAfter(a + b, seen)
  {
    hide Counts.Plus, Deltas;
    var s := SeenAfter(a, seen);
    TotalAppend(a, b, seen);
    TotalAppend(a, [l] + b, seen);
    assert a + [l] + b == a + ([l] + b) && ([l] + b)[1..] == b && s + Ids(l) == s;
    PlusLaws(Total(b, s), ZERO, ZERO);
  }

  /** Lines that share an id carry the same counts, as the lines of one message do. */
  predicate Consistent(lines: seq<Line>) {
    forall k, l | k in lines && l in lines && k.Message? && l.Message? && k.id.Known? && k.id == l.id ::
      Deltas(k) == Deltas(l)
  }

  lemma SwapFirst(k: Line, l: Line, rest: seq<Line>, seen: set<string>)
    requires Consistent([k, l])
    ensures Total([k, l] + rest, seen) == Total([l, k] + rest, seen)
    ensures SeenAfter([k, l] + rest, seen) == SeenAfter([l, k] + rest, seen)
  {
    hide Deltas;
    var a, b := [k, l] + rest, [l, k] + rest;
    assert a[1..] == [l] + rest && a[1..][1..] == rest && b[1..] == [k] + rest && b[1..][1..] == rest;
    assert seen + Ids(k) + Ids(l) == seen + Ids(l) + Ids(k);
    assert k in [k, l] && l in [k, l];
  }

  /** A line can move to the front. */
  lemma {:induction false} MoveToFront(x: seq<Line>, l: Line, y: seq<Line>, seen: set<string>)
    requires Consistent(x + [l])
    ensures Total(x + [l] + y, seen) == Total([l] + x + y, seen)
  {
    hide Deltas, Counts.Plus, Repeats, Ids;
    if x == [] {
      assert x + [l] + y == [l] + x + y;
    } else {
      var k, z := x[0], x[1..];
      var s := seen + Ids(k);
      assert forall m | m in z + [l] :: m in x + [l];
      MoveToFront(z, l, y, s);
      assert (x + [l] + y)[1..] == z + [l] + y;
      assert [l] + x + y == [l, k] + (z + y) && [k, l] + (z + y) == [k] + ([l] + z + y);
      assert ([k] + ([l] + z + y))[1..] == [l] + z + y;
      assert k in x + [l] && l in x + [l];
      SwapFirst(k, l, z + y, seen);
    }
  }

  lemma ConsistentParts(a: seq<Line>, b: seq<Line>, i: nat)
    requires a != [] && i < |b| && multiset(a) == multiset(b) && Consistent(a)
    ensures Consistent(a[1..]) && Consistent(b[..i] + [b[i]])
  {
    hide Deltas;
    assert forall m | m in b[..i] + [b[i]] :: m in multiset(b);
    assert forall m | m in multiset(a) :: m in a;
  }

  /** The order of the lines does not matter, as long as lines sharing an id agree. */
  lemma {:induction false} OrderDoesNotMatter(a: seq<Line>, b: seq<Line>, seen: set<string>)
    requires multiset(a) == multiset(b) && Consistent(a)
    ensures Total(a, seen) == Total(b, seen)
  {
    hide Deltas, Counts.Plus, Repeats, Ids, Consistent;
    if a == [] {
      assert |multiset(b)| == |b|;
    } else {
      var l := a[0];
      assert l in multiset(a) && l in multiset(b);
      var i :| 0 <= i < |b| && b[i] == l;
      var x, y := b[..i], b[i + 1..];
      assert b == x + [l] + y;
      RemoveOne(a, b, i);
      ConsistentParts(a, b, i);
      MoveToFront(x, l, y, seen);
      OrderDoesNotMatter(a[1..], x + y, seen + Ids(l));
      assert [l] + x + y == [l] + (x + y) && ([l] + (x + y))[1..] == x + y;
    }
  }

  lemma SeenByMembership(lines: seq<Line>, seen: set<string>, id: string)
    ensures id in SeenAfter(lines, seen) <==> id in seen || exists m :: m in multiset(lines) && m.Message? && m.id == Known(id)
  {
    SeenAfterIs(lines, seen);
    if i :| 0 <= i < |lines| && lines[i].Message? && lines[i].id == Known(id) {
      assert lines[i] in multiset(lines);
    }
    if m :| m in multiset(lines) && m.Message? && m.id == Known(id) {
      assert m in lines;
    }
  }

  /** Nor does it change the ids, and so the number of turns. */
  lemma OrderKeepsTurns(a: seq<Line>, b: seq<Line>, seen: set<string>)
    requires multiset(a) == multiset(b)
    ensures SeenAfter(a, seen) == SeenAfter(b, seen)
  {
    hide SeenAfter;
    forall id
      ensures id in SeenAfter(a, seen) <==> id in SeenAfter(b, seen)
    {
      SeenByMembership(a, seen, id);
      SeenByMembership(b, seen, id);
    }
  }
}
