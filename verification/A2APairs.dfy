/** robofleet/agents_config.py `_compute_a2a_allowed_pairs`: the pair list behind the CEO's switchboard. */
module A2APairs {
  import opened OptionType
  import opened Text
  import opened A2AMatrix

  /** Python's order on strings: by code points, a proper prefix first. */
  predicate Less(a: string, b: string) {
    b != "" && (a == "" || a[0] < b[0] || (a[0] == b[0] && Less(a[1..], b[1..])))
  }

  /** The one ends where the other goes on, or has the smaller character where they first differ. */
  lemma {:induction false} LessExactly(a: string, b: string)
    ensures Less(a, b) <==> exists k: nat :: DiffersAt(a, b, k)
  {
    if a != "" && b != "" && a[0] == b[0] {
      LessExactly(a[1..], b[1..]);
      if k: nat :| DiffersAt(a[1..], b[1..], k) {
        assert a[..k + 1] == [a[0]] + a[1..][..k] && b[..k + 1] == [b[0]] + b[1..][..k];
        assert DiffersAt(a, b, k + 1);
      }
      if k: nat :| DiffersAt(a, b, k) {
        assert a[1..][..k - 1] == a[..k][1..] && b[1..][..k - 1] == b[..k][1..];
        assert DiffersAt(a[1..], b[1..], k - 1);
      }
    } else {
      if Less(a, b) {
        assert DiffersAt(a, b, 0);
      }
      forall k: nat | DiffersAt(a, b, k)
        ensures k == 0
      {
        SameHead(a, b, k);
      }
    }
  }

  predicate DiffersAt(a: string, b: string, k: nat) {
    k <= |a| && k < |b| && a[..k] == b[..k] && (k == |a| || a[k] < b[k])
  }

  lemma SameHead(a: string, b: string, k: nat)
    requires DiffersAt(a, b, k)
    ensures k > 0 ==> a != "" && b != "" && a[0] == b[0]
  {
    if k > 0 {
      assert a[..k][0] == a[0] && b[..k][0] == b[0];
    }
  }

  lemma {:induction false} LessIsOrder(a: string, b: string, c: string)
    ensures !Less(a, a)
    ensures a != b ==> (Less(a, b) <==> !Less(b, a))
    ensures Less(a, b) && Less(b, c) ==> Less(a, c)
  {
    if a != "" {
      LessIsOrder(a[1..], if b == "" then "" else b[1..], if c == "" then "" else c[1..]);
      if b != "" && a[0] == b[0] {
        assert a == [a[0]] + a[1..] && b == [b[0]] + b[1..];
      }
    }
  }

  datatype Group = CeoGroup | CellGroup(team: Team) | PmChain | BoardGroup | Cross

  function GroupKey(roleA: Role, teamA: Team, roleB: Role, teamB: Team): Group {
    if roleA == Ceo || roleB == Ceo then CeoGroup
    else if teamA == teamB && teamA in CELL_TEAMS then CellGroup(teamA)
    else if {roleA, roleB} == {CellPm, MainPm} then PmChain
    else if (roleA == MainPm || roleB == MainPm) && (roleA in BOARD_ROLES || roleB in BOARD_ROLES) then PmChain
    else if roleA in BOARD_ROLES && roleB in BOARD_ROLES then BoardGroup
    else Cross
  }

  datatype Pair = Pair(a: string, b: string, roleA: Role, teamA: Team, roleB: Role, teamB: Team, group: Group)

  function PairOf(reg: Registry, a: string, b: string): Pair
    requires a in reg.rows && b in reg.rows
  {
    var ra, rb := reg.rows[a], reg.rows[b];
    Pair(a, b, ra.role, ra.team, rb.role, rb.team, GroupKey(ra.role, ra.team, rb.role, rb.team))
  }

  predicate Sorted(slugs: seq<string>) {
    forall i, j | 0 <= i < j < |slugs| :: Less(slugs[i], slugs[j])
  }

  /** Some direction between the two is allowed. */
  predicate Either(reg: Registry, a: string, b: string) {
    May(reg, a, b) || May(reg, b, a)
  }

  /** The inner loop: the pairs of `a` with the slugs from `j` on. */
  function PairsWith(reg: Registry, slugs: seq<string>, a: string, j: nat): seq<Pair>
    requires j <= |slugs| && a in reg.rows && forall s | s in slugs :: s in reg.rows
    decreases |slugs| - j
  {
    if j == |slugs| then []
    else (if Either(reg, a, slugs[j]) then [PairOf(reg, a, slugs[j])] else []) + PairsWith(reg, slugs, a, j + 1)
  }

  function PairsFrom(reg: Registry, slugs: seq<string>, i: nat): seq<Pair>
    requires i <= |slugs| && forall s | s in slugs :: s in reg.rows
    decreases |slugs| - i
  {
    if i == |slugs| then [] else PairsWith(reg, slugs, slugs[i], i + 1) + PairsFrom(reg, slugs, i + 1)
  }

  method ComputePairs(reg: Registry, slugs: seq<string>) returns (pairs: seq<Pair>)
    requires forall s | s in slugs :: s in reg.rows
    requires Sorted(slugs)
    ensures pairs == PairsFrom(reg, slugs, 0)
    ensures StrictlyOrdered(pairs)
    ensures forall p :: p in pairs <==>
              p.a in slugs && p.b in slugs && Less(p.a, p.b) && (May(reg, p.a, p.b) || May(reg, p.b, p.a)) && p == PairOf(reg, p.a, p.b)
  {
    hide May, PairOf, Less;
    pairs := [];
    var i := 0;
    while i < |slugs|
      invariant 0 <= i <= |slugs|
      invariant pairs + PairsFrom(reg, slugs, i) == PairsFrom(reg, slugs, 0)
    {
      Assoc(pairs, PairsWith(reg, slugs, slugs[i], i + 1), PairsFrom(reg, slugs, i + 1));
      var a := slugs[i];
      ghost var before := pairs;
      var j := i + 1;
      while j < |slugs|
        invariant i < j <= |slugs|
        invariant pairs + PairsWith(reg, slugs, a, j) == before + PairsWith(reg, slugs, a, i + 1)
      {
        if Either(reg, a, slugs[j]) {
          Assoc(pairs, [PairOf(reg, a, slugs[j])], PairsWith(reg, slugs, a, j + 1));
          pairs := pairs + [PairOf(reg, a, slugs[j])];
        }
        assert [] + PairsWith(reg, slugs, a, j + 1) == PairsWith(reg, slugs, a, j + 1);
        j := j + 1;
      }
      assert pairs == before + PairsWith(reg, slugs, a, i + 1);
      i := i + 1;
    }
    PairListExact(reg, slugs);
  }

  predicate PairLess(p: Pair, q: Pair) {
    Less(p.a, q.a) || (p.a == q.a && Less(p.b, q.b))
  }

  predicate StrictlyOrdered(pairs: seq<Pair>) {
    forall k, l | 0 <= k < l < |pairs| :: PairLess(pairs[k], pairs[l])
  }

  lemma {:induction false} PairsWithExact(reg: Registry, slugs: seq<string>, a: string, j: nat)
    requires j <= |slugs| && a in reg.rows && (forall s | s in slugs :: s in reg.rows) && Sorted(slugs)
    ensures forall p :: p in PairsWith(reg, slugs, a, j) <==>
              p.a == a && p.b in slugs[j..] && Either(reg, a, p.b) && p == PairOf(reg, a, p.b)
    ensures StrictlyOrdered(PairsWith(reg, slugs, a, j))
    decreases |slugs| - j
  {
    hide Less, May;
    if j < |slugs| {
      PairsWithExact(reg, slugs, a, j + 1);
      assert slugs[j..] == [slugs[j]] + slugs[j + 1..];
    }
  }

  lemma {:induction false} PairsFromExact(reg: Registry, slugs: seq<string>, i: nat)
    requires i <= |slugs| && (forall s | s in slugs :: s in reg.rows) && Sorted(slugs)
    ensures forall p :: p in PairsFrom(reg, slugs, i) <==>
              p.a in slugs[i..] && p.b in slugs[i..] && Less(p.a, p.b) && Either(reg, p.a, p.b) && p == PairOf(reg, p.a, p.b)
    ensures StrictlyOrdered(PairsFrom(reg, slugs, i))
    decreases |slugs| - i
  {
    hide Less, May;
    if i < |slugs| {
      var a, rest := slugs[i], slugs[i + 1..];
      PairsFromExact(reg, slugs, i + 1);
      PairsWithExact(reg, slugs, a, i + 1);
      assert slugs[i..] == [a] + rest;
      LessIsOrder(a, a, a);
      forall s | s in rest
        ensures Less(a, s) && !Less(s, a) && !Less(a, a)
      {
        var k :| 0 <= k < |rest| && rest[k] == s;
        assert slugs[i + 1 + k] == s;
        LessIsOrder(a, s, s);
      }
    }
  }

  /** The list is strictly ordered and holds exactly the ordered pairs with some allowed direction. */
  lemma PairListExact(reg: Registry, slugs: seq<string>)
    requires (forall s | s in slugs :: s in reg.rows) && Sorted(slugs)
    ensures StrictlyOrdered(PairsFrom(reg, slugs, 0))
    ensures forall p :: p in PairsFrom(reg, slugs, 0) <==>
              p.a in slugs && p.b in slugs && Less(p.a, p.b) && Either(reg, p.a, p.b) && p == PairOf(reg, p.a, p.b)
  {
    PairsFromExact(reg, slugs, 0);
    assert slugs[0..] == slugs;
  }

  /** An entry carries its two agents' own roles and teams. */
  lemma EntriesCarryRows(reg: Registry, slugs: seq<string>)
    requires (forall s | s in slugs :: s in reg.rows) && Sorted(slugs)
    ensures forall p | p in PairsFrom(reg, slugs, 0) ::
              && p.a in reg.rows && p.b in reg.rows
              && Row(p.roleA, p.teamA) == reg.rows[p.a] && Row(p.roleB, p.teamB) == reg.rows[p.b]
  {
    hide Less, May, PairsFrom, GroupKey;
    PairListExact(reg, slugs);
  }

  predicate Joins(p: Pair, a: string, b: string) {
    (p.a == a && p.b == b) || (p.a == b && p.b == a)
  }

  /** Two different participants share exactly one entry if some direction between them is allowed, and none otherwise. */
  lemma OneEntryPerPair(reg: Registry, slugs: seq<string>, pairs: seq<Pair>, a: string, b: string)
    requires (forall s | s in slugs :: s in reg.rows) && Sorted(slugs)
    requires pairs == PairsFrom(reg, slugs, 0)
    requires a in slugs && b in slugs && a != b
    ensures May(reg, a, b) || May(reg, b, a) <==> exists k :: 0 <= k < |pairs| && Joins(pairs[k], a, b)
    ensures forall k, l | 0 <= k < |pairs| && 0 <= l < |pairs| && Joins(pairs[k], a, b) && Joins(pairs[l], a, b) :: k == l
  {
    hide Less, May;
    PairListExact(reg, slugs);
    LessIsOrder(a, b, b);
    LessIsOrder(b, a, a);
    var lo, hi := if Less(a, b) then a else b, if Less(a, b) then b else a;
    if Either(reg, a, b) {
      var p := PairOf(reg, lo, hi);
      assert p in pairs;
      var k :| 0 <= k < |pairs| && pairs[k] == p;
      assert Joins(pairs[k], a, b);
    }
    forall k | 0 <= k < |pairs| && Joins(pairs[k], a, b)
      ensures pairs[k].a == lo && pairs[k].b == hi && Either(reg, a, b)
    {
      assert pairs[k] in pairs;
    }
  }

  /** Where the catalogue puts each role: cell roles in cells, the board and the CEO on the board team. */
  predicate InPlace(row: Row) {
    && (row.role in MEMBER_ROLES || row.role == CellPm ==> row.team in CELL_TEAMS)
    && (row.role in BOARD_ROLES || row.role == Ceo ==> row.team == Board)
    && (row.role == MainPm ==> row.team == MainPmTeam)
    && row.role !in {Prompter, Secretary, System, Unknown}
  }

  /** One of the two is in `p` and the other in `q`. */
  predicate Between(a: Role, b: Role, p: set<Role>, q: set<Role>) {
    (a in p && b in q) || (a in q && b in p)
  }

  /** Two PMs of one rank, or a PR reviewer and a PM. */
  predicate Lateral(a: Role, b: Role) {
    || Between(a, b, {MainPm}, {MainPm})
    || Between(a, b, {CellPm}, {CellPm})
    || Between(a, b, {PrReviewer}, {CellPm, MainPm})
  }

  predicate OnBoard(role: Role) {
    role == ProductOwner || role == HeadMarketing || role == Auditor
  }

  lemma OnBoardIs(role: Role)
    ensures OnBoard(role) <==> role in BOARD_ROLES
  {
  }

  /** The section of any two agents, whatever their rows say. */
  lemma SectionExactly(a: Role, teamA: Team, b: Role, teamB: Team)
    ensures var g := GroupKey(a, teamA, b, teamB);
            var cell := teamA == teamB && (teamA == Backend || teamA == Frontend || teamA == UxUi);
            && (g == CeoGroup <==> a == Ceo || b == Ceo)
            && (g.CellGroup? <==> a != Ceo && b != Ceo && cell)
            && (g.CellGroup? ==> g.team == teamA)
            && (g == PmChain <==> !cell && ((a == MainPm && (b == CellPm || OnBoard(b))) || (b == MainPm && (a == CellPm || OnBoard(a)))))
            && (g == BoardGroup <==> !cell && OnBoard(a) && OnBoard(b))
  {
    hide BOARD_ROLES;
    PairIs(a, b);
    OnBoardIs(a);
    OnBoardIs(b);
  }

  lemma PairIs(a: Role, b: Role)
    ensures {a, b} == {CellPm, MainPm} <==> (a == CellPm && b == MainPm) || (a == MainPm && b == CellPm)
  {
    assert a in {a, b} && b in {a, b} && CellPm in {CellPm, MainPm} && MainPm in {CellPm, MainPm};
    assert {MainPm, CellPm} == {CellPm, MainPm};
  }

  /**
   The switchboard's sections: the order of the two agents does not matter; outside the CEO's and the cells' own
   sections an allowed pair is on the PM chain, within the board, or lateral.
   */
  lemma SectionsOfAllowedPairs(reg: Registry, a: string, b: string)
    requires a in reg.rows && b in reg.rows && a !in reg.slugs && b !in reg.slugs
    requires InPlace(reg.rows[a]) && InPlace(reg.rows[b]) && (May(reg, a, b) || May(reg, b, a))
    ensures var ra, rb := reg.rows[a], reg.rows[b];
            var g := PairOf(reg, a, b).group;
            && g == PairOf(reg, b, a).group
            && (g == CeoGroup <==> ra.role == Ceo || rb.role == Ceo)
            && (g.CellGroup? <==> ra.team == rb.team && ra.team in CELL_TEAMS)
            && (g.CellGroup? ==> g.team == ra.team)
            && (g == PmChain <==> Between(ra.role, rb.role, {MainPm}, {CellPm} + BOARD_ROLES))
            && (g == BoardGroup <==> Between(ra.role, rb.role, BOARD_ROLES, BOARD_ROLES))
            && (g == Cross <==> !g.CellGroup? && Lateral(ra.role, rb.role))
  {
    var ra, rb := reg.rows[a], reg.rows[b];
    assert RoleOf(reg, a) == ra.role && RoleOf(reg, b) == rb.role;
    assert ra.role in {ra.role, rb.role} && rb.role in {ra.role, rb.role};
    assert {ra.role, rb.role} == {CellPm, MainPm} <==> Between(ra.role, rb.role, {MainPm}, {CellPm});
  }

  /** Only the first of the two may open a conversation with the second. */
  predicate OneWay(reg: Registry, a: string, b: string) {
    May(reg, a, b) && !May(reg, b, a)
  }

  /**
   The one-way pairs of the matrix, all of them: the CEO's reach, messages to the auditor from the board and the main
   PM, a PR reviewer's verdict to a PM that is not of its own cell, and a cell member's word to the PR reviewer of its cell.
   Everywhere else who may write may be written to.
   */
  lemma OneWayExactly(reg: Registry, a: string, b: string)
    requires a in reg.rows && b in reg.rows && a !in reg.slugs && b !in reg.slugs
    requires InPlace(reg.rows[a]) && InPlace(reg.rows[b])
    ensures var ra, rb := reg.rows[a], reg.rows[b];
            OneWay(reg, a, b) <==>
            || (ra.role == Ceo && rb.role != Ceo)
            || (rb.role == Auditor && ra.role in {ProductOwner, HeadMarketing, MainPm})
            || (ra.role == PrReviewer && (rb.role == MainPm || (rb.role == CellPm && ra.team != rb.team)))
            || (rb.role == PrReviewer && ra.role in MEMBER_ROLES && ra.team == rb.team)
  {
    assert RoleOf(reg, a) == reg.rows[a].role && RoleOf(reg, b) == reg.rows[b].role;
    assert TeamOf(reg, a) == Some(reg.rows[a].team) && TeamOf(reg, b) == Some(reg.rows[b].team);
    hide May, RoleOf, TeamOf;
    MayExactly(reg, a, b);
    MayExactly(reg, b, a);
  }
}
