/** robofleet/api/middleware_docs.py: who may read or write which documentation folder, decided and enumerated. */
module DocsAccess {
  import opened OptionType
  import opened Text

  const ANYONE := "*"
  const TEAM := "team:"
  const FULL_ACCESS_ROLES: set<string> := {"ceo"}
  const READ_ALL_ROLES: set<string> := {"auditor", "main_pm"}
  const ALL_DOCS := ["be-doc", "fe-doc", "ux-doc"]

  datatype Rule = Rule(key: string, read: seq<string>, write: seq<string>)

  const RULES: seq<Rule> := [
    Rule("internal", ["ceo"], ["ceo"]),
    Rule("standards", [ANYONE], ["main_pm", "cell_pm", "documenter"]),
    Rule("workflows", [ANYONE], ["main_pm"]),
    Rule("backend", ["team:backend", "main_pm", "cell_pm"], ["be-doc"]),
    Rule("frontend", ["team:frontend", "main_pm", "cell_pm"], ["fe-doc"]),
    Rule("ux_ui", ["team:ux_ui", "main_pm", "cell_pm"], ["ux-doc"]),
    Rule("features/backend", ["team:backend", "main_pm", "cell_pm"], ["be-doc"]),
    Rule("features/frontend", ["team:frontend", "main_pm", "cell_pm"], ["fe-doc"]),
    Rule("features/ux_ui", ["team:ux_ui", "main_pm", "cell_pm"], ["ux-doc"]),
    Rule("features/shared", [ANYONE], ALL_DOCS),
    Rule("bugs/backend", [ANYONE], ["be-doc"]),
    Rule("bugs/frontend", [ANYONE], ["fe-doc"]),
    Rule("bugs/ux_ui", [ANYONE], ["ux-doc"]),
    Rule("bugs/resolved", [ANYONE], ALL_DOCS),
    Rule("self", ["main_pm", "cell_pm", "auditor", "product_owner"], ["main_pm", "auditor"]),
    Rule("initiatives", ["main_pm", "cell_pm", "product_owner"], ["main_pm"])]

  /** The agent catalogue: slugs behind UUIDs, and each slug's role and team. */
  datatype Agents = Agents(slugs: map<string, string>, roles: map<string, string>, teams: map<string, string>)

  function Lookup(m: map<string, string>, key: string): Option<string> {
    if key in m then Some(m[key]) else None
  }

  function Resolve(agents: Agents, id: string): string {
    Lookup(agents.slugs, id).GetOr(id)
  }

  function StripPathPrefixes(path: string): string {
    var p := StripStart(path, '/');
    var q := if "app/" <= p then p[4..] else p;
    if "docs/" <= q then q[5..] else q
  }

  /** `_normalize_path`: the first component, or the first two below `features` and `bugs`. */
  function NormalizePath(path: string): string {
    var p := StripPathPrefixes(path);
    if p == "" then ""
    else
      var parts := SplitOn(p, '/');
      if |parts| >= 2 && parts[0] in ["features", "bugs"] then parts[0] + "/" + parts[1] else parts[0]
  }

  /** The first rule from `i` on that satisfies a test on its key. */
  function FindRule(i: nat, test: string -> bool): (r: Option<Rule>)
    requires i <= |RULES|
    ensures r.Some? ==> r.value in RULES && test(r.value.key)
    ensures r.None? ==> forall k | i <= k < |RULES| :: !test(RULES[k].key)
    decreases |RULES| - i
  {
    if i == |RULES| then None
    else if test(RULES[i].key) then Some(RULES[i])
    else FindRule(i + 1, test)
  }

  /** `_get_permission_rule`: the rule of that name, else the first whose name begins the prefix. */
  function RuleFor(prefix: string): Option<Rule> {
    var exact := FindRule(0, k => k == prefix);
    if exact.Some? then exact else FindRule(0, k => k <= prefix)
  }

  function Allowed(r: Rule, action: string): seq<string> {
    if action == "read" then r.read else if action == "write" then r.write else []
  }

  /** `_agent_matches_permission` */
  predicate Matches(slug: string, role: string, team: Option<string>, permission: string) {
    || permission == ANYONE || permission == slug || permission == role
    || (TEAM <= permission && team == Some(permission[|TEAM|..]))
  }

  predicate MatchesAny(slug: string, role: string, team: Option<string>, permissions: seq<string>) {
    exists p | p in permissions :: Matches(slug, role, team, p)
  }

  /** `_fast_path_access_decision` */
  function FastPath(role: Option<string>, prefix: string, action: string): Option<bool> {
    if role.None? || role.value == "" then Some(false)
    else if role.value in FULL_ACCESS_ROLES then Some(true)
    else if prefix == "" || prefix == "internal" then Some(false)
    else if role.value in READ_ALL_ROLES && action == "read" then Some(true)
    else None
  }

  /** `check_docs_access` */
  predicate CheckAccess(agents: Agents, id: string, path: string, action: string) {
    var slug := Resolve(agents, id);
    var role, team := Lookup(agents.roles, slug), Lookup(agents.teams, slug);
    var prefix := NormalizePath(path);
    var fast := FastPath(role, prefix, action);
    if fast.Some? then fast.value
    else match RuleFor(prefix)
      case None => false
      case Some(rule) => MatchesAny(slug, role.value, team, Allowed(rule, action))
  }

  predicate PathAllowed(r: Rule, slug: string, role: string, team: Option<string>, action: string) {
    (role in READ_ALL_ROLES && action == "read") || MatchesAny(slug, role, team, Allowed(r, action))
  }

  function Keys(rules: seq<Rule>, keep: Rule -> bool): seq<string> {
    if rules == [] then [] else (if keep(rules[0]) then [rules[0].key] else []) + Keys(rules[1..], keep)
  }

  /** `get_allowed_docs_paths` */
  function AllowedPaths(agents: Agents, id: string, action: string): seq<string> {
    var slug := Resolve(agents, id);
    var role, team := Lookup(agents.roles, slug), Lookup(agents.teams, slug);
    if role.None? || role.value == "" then []
    else if role.value in FULL_ACCESS_ROLES then Keys(RULES, _ => true)
    else Keys(RULES, (r: Rule) => r.key != "internal" && PathAllowed(r, slug, role.value, team, action))
  }

  lemma {:induction false} KeysMember(rules: seq<Rule>, keep: Rule -> bool, key: string)
    ensures key in Keys(rules, keep) <==> exists r | r in rules :: keep(r) && r.key == key
  {
    if rules != [] {
      KeysMember(rules[1..], keep, key);
      assert rules == [rules[0]] + rules[1..];
    }
  }

  /** The only rule whose name can begin this text, told from a few of its letters. */
  function RuleAt(p: string): nat {
    if |p| < 4 then 16
    else if p[0] == 'i' then (if p[2] == 't' then 0 else 15)
    else if p[0] == 's' then (if p[1] == 't' then 1 else 14)
    else if p[0] == 'w' then 2
    else if p[0] == 'u' then 5
    else if p[0] == 'f' then
      (if p[1] == 'r' then 4 else if |p| < 10 then 16
       else if p[9] == 'b' then 6 else if p[9] == 'f' then 7 else if p[9] == 'u' then 8 else 9)
    else if p[1] == 'a' then 3
    else if |p| < 6 then 16
    else if p[5] == 'b' then 10 else if p[5] == 'f' then 11 else if p[5] == 'u' then 12 else 13
  }

  lemma RuleAtName(i: nat)
    requires i < |RULES|
    ensures RuleAt(RULES[i].key) == i < 16
  {
    hide RuleAt;
    if i < 3 {
      RuleAtFirst(i);
    } else if i < 6 {
      RuleAtTeam(i);
    } else if i < 10 {
      RuleAtFeatures(i);
    } else if i < 14 {
      RuleAtBugs(i);
    } else {
      RuleAtLast(i);
    }
  }

  lemma RuleAtFirst(i: nat)
    requires i < 3
    ensures RuleAt(RULES[i].key) == i
  {
    assert RULES[0].key == "internal" && RULES[1].key == "standards" && RULES[2].key == "workflows";
  }

  lemma RuleAtTeam(i: nat)
    requires 3 <= i < 6
    ensures RuleAt(RULES[i].key) == i
  {
    assert RULES[3].key == "backend" && RULES[4].key == "frontend" && RULES[5].key == "ux_ui";
  }

  lemma RuleAtFeatures(i: nat)
    requires 6 <= i < 10
    ensures RuleAt(RULES[i].key) == i
  {
    assert RULES[6].key == "features/backend" && RULES[7].key == "features/frontend";
    assert RULES[8].key == "features/ux_ui" && RULES[9].key == "features/shared";
  }

  lemma RuleAtBugs(i: nat)
    requires 10 <= i < 14
    ensures RuleAt(RULES[i].key) == i
  {
    assert RULES[10].key == "bugs/backend" && RULES[11].key == "bugs/frontend" && RULES[12].key == "bugs/ux_ui";
    assert RULES[13].key == "bugs/resolved";
  }

  lemma RuleAtLast(i: nat)
    requires i == 14 || i == 15
    ensures RuleAt(RULES[i].key) == i
  {
    assert RULES[14].key == "self" && RULES[15].key == "initiatives";
  }

  lemma RuleAtExtends(i: nat, p: string)
    requires i < |RULES| && RULES[i].key <= p
    ensures RuleAt(p) == i
  {
    hide RULES;
    RuleAtName(i);
  }

  lemma OneRuleBegins(prefix: string, q: Rule, t: Rule)
    requires q in RULES && t in RULES && q.key <= prefix && t.key <= prefix
    ensures q == t
  {
    hide RULES, RuleAt;
    var i :| 0 <= i < |RULES| && RULES[i] == q;
    var j :| 0 <= j < |RULES| && RULES[j] == t;
    RuleAtExtends(i, prefix);
    RuleAtExtends(j, prefix);
  }

  /** No rule's name begins another's: a prefix is judged by the one rule whose name begins it, and by none otherwise. */
  lemma RuleExactly(prefix: string, r: Rule)
    ensures RuleFor(prefix) == Some(r) <==> r in RULES && r.key <= prefix
    ensures RuleFor(prefix).None? <==> forall q | q in RULES :: !(q.key <= prefix)
  {
    hide RULES;
    var exact, first := FindRule(0, k => k == prefix), FindRule(0, k => k <= prefix);
    forall q, t | q in RULES && t in RULES && q.key <= prefix && t.key <= prefix
      ensures q == t
    {
      OneRuleBegins(prefix, q, t);
    }
    assert first.None? ==> forall q | q in RULES :: !(q.key <= prefix);
  }

  /** The agent's permissions on one rule, as the enumeration sees them. */
  lemma ListedIff(agents: Agents, id: string, action: string, r: Rule)
    requires r in RULES
    ensures var slug := Resolve(agents, id);
            var role, team := Lookup(agents.roles, slug), Lookup(agents.teams, slug);
            r.key in AllowedPaths(agents, id, action) <==>
            && role.Some? && role.value != ""
            && (role.value in FULL_ACCESS_ROLES || (r.key != "internal" && PathAllowed(r, slug, role.value, team, action)))
  {
    hide MatchesAny, Allowed;
    var slug := Resolve(agents, id);
    var role, team := Lookup(agents.roles, slug), Lookup(agents.teams, slug);
    if role.Some? && role.value != "" {
      KeysMember(RULES, _ => true, r.key);
      KeysMember(RULES, (r: Rule) => r.key != "internal" && PathAllowed(r, slug, role.value, team, action), r.key);
      forall q | q in RULES && q.key == r.key
        ensures q == r
      {
        OneRuleBegins(r.key, q, r);
      }
    }
  }

  /** The rule for the CEO's own folder names nobody but the CEO. */
  lemma InternalRule(r: Rule, slug: string, role: string, team: Option<string>, action: string)
    requires r in RULES && r.key == "internal" && role != "ceo"
    ensures MatchesAny(slug, role, team, Allowed(r, action)) <==> slug == "ceo" && action in ["read", "write"]
  {
    OneRuleBegins(r.key, r, RULES[0]);
    assert "ceo"[0] == 'c' && TEAM[0] == 't' && ANYONE[0] == '*';
    assert RULES[0].read == ["ceo"] && RULES[0].write == ["ceo"];
    assert Matches(slug, role, team, "ceo") <==> slug == "ceo";
    assert forall p | p in ["ceo"] :: p == "ceo";
    assert "ceo" in ["ceo"];
  }

  /** The decision skips the list: a read-all reader, or the slug `ceo`, at a path beginning like the CEO's folder. */
  predicate SkipsList(agents: Agents, id: string, prefix: string, action: string) {
    var slug := Resolve(agents, id);
    var role := Lookup(agents.roles, slug);
    && prefix != "internal" && role.Some? && role.value !in ["", "ceo"]
    && ((role.value in READ_ALL_ROLES && action == "read") || (slug == "ceo" && action in ["read", "write"]))
  }

  /**
   The decision for a path agrees with the enumerated list about the rule that governs it, always when that rule is
   not the CEO's folder or the path lies in it, and otherwise exactly when the agent does not skip the list.
   */
  lemma DecisionAgreesWithList(agents: Agents, id: string, path: string, action: string)
    requires RuleFor(NormalizePath(path)).Some?
    ensures var prefix := NormalizePath(path);
            var rule := RuleFor(prefix).value;
            (CheckAccess(agents, id, path, action) <==> rule.key in AllowedPaths(agents, id, action)) <==>
            !(rule.key == "internal" && SkipsList(agents, id, prefix, action))
  {
    hide NormalizePath, MatchesAny, Allowed, AllowedPaths;
    var prefix := NormalizePath(path);
    var rule := RuleFor(prefix).value;
    var slug := Resolve(agents, id);
    var role, team := Lookup(agents.roles, slug), Lookup(agents.teams, slug);
    ListedIff(agents, id, action, rule);
    assert rule.key <= prefix && rule.key != "" by {
      RuleNonempty(rule);
    }
    if prefix == "internal" {
      RuleExactly(prefix, RULES[0]);
    }
    if rule.key == "internal" && role.Some? && role.value != "ceo" {
      InternalRule(rule, slug, role.value, team, action);
    }
  }

  lemma RuleNonempty(r: Rule)
    requires r in RULES
    ensures r.key != ""
  {
    hide RULES;
    var i :| 0 <= i < |RULES| && RULES[i] == r;
    RuleAtName(i);
  }

  /** For a path whose prefix is a rule's name, the decision is membership of that name in the list. */
  lemma ExactPathsAgree(agents: Agents, id: string, path: string, action: string, r: Rule)
    requires r in RULES && NormalizePath(path) == r.key
    ensures CheckAccess(agents, id, path, action) <==> r.key in AllowedPaths(agents, id, action)
  {
    hide NormalizePath, CheckAccess, AllowedPaths, RuleFor;
    RuleExactly(r.key, r);
    DecisionAgreesWithList(agents, id, path, action);
  }

  /** Where no rule applies, only the CEO gets in, and read-all readers below the root. */
  lemma WithoutRule(agents: Agents, id: string, path: string, action: string)
    requires RuleFor(NormalizePath(path)).None?
    ensures var role := Lookup(agents.roles, Resolve(agents, id));
            CheckAccess(agents, id, path, action) <==>
            && role.Some?
            && (role.value == "ceo" || (NormalizePath(path) != "" && role.value in READ_ALL_ROLES && action == "read"))
  {
    hide NormalizePath, RuleFor;
    assert FULL_ACCESS_ROLES == {"ceo"} && "" !in FULL_ACCESS_ROLES;
    RuleExactly(NormalizePath(path), RULES[0]);
  }

  /**
   The decision for every path: without a rule, the CEO's and the read-all readers' own right; with one, membership of
   the rule in the enumerated list, or skipping the list at a folder that only begins like the CEO's.
   */
  lemma AccessExactly(agents: Agents, id: string, path: string, action: string)
    ensures var prefix := NormalizePath(path);
            var role := Lookup(agents.roles, Resolve(agents, id));
            CheckAccess(agents, id, path, action) <==>
            match RuleFor(prefix)
            case None =>
              role.Some? && (role.value == "ceo" || (prefix != "" && role.value in READ_ALL_ROLES && action == "read"))
            case Some(rule) =>
              || rule.key in AllowedPaths(agents, id, action)
              || (rule.key == "internal" && SkipsList(agents, id, prefix, action))
  {
    hide NormalizePath, CheckAccess, AllowedPaths, RuleFor;
    var prefix := NormalizePath(path);
    match RuleFor(prefix)
    case None => WithoutRule(agents, id, path, action);
    case Some(rule) =>
      DecisionAgreesWithList(agents, id, path, action);
      RuleIsListed(prefix);
      if rule.key == "internal" && SkipsList(agents, id, prefix, action) {
        InternalIsUnlisted(agents, id, prefix, action, rule);
      }
  }

  lemma RuleIsListed(prefix: string)
    ensures RuleFor(prefix).Some? ==> RuleFor(prefix).value in RULES
  {
  }

  lemma InternalIsUnlisted(agents: Agents, id: string, prefix: string, action: string, r: Rule)
    requires r in RULES && r.key == "internal" && SkipsList(agents, id, prefix, action)
    ensures r.key !in AllowedPaths(agents, id, action)
  {
    hide AllowedPaths;
    ListedIff(agents, id, action, r);
  }

  // ---- The policy, folder by folder ----

  predicate Is(slug: string, role: string, name: string) {
    slug == name || role == name
  }

  predicate OfTeam(slug: string, role: string, team: Option<string>, name: string) {
    team == Some(name) || Is(slug, role, "team:" + name)
  }

  /** Who may read a folder: its own readers, apart from those who read everything. */
  predicate MayRead(key: string, slug: string, role: string, team: Option<string>) {
    if key == "internal" then Is(slug, role, "ceo")
    else if key in ["backend", "features/backend"] then
      OfTeam(slug, role, team, "backend") || Is(slug, role, "main_pm") || Is(slug, role, "cell_pm")
    else if key in ["frontend", "features/frontend"] then
      OfTeam(slug, role, team, "frontend") || Is(slug, role, "main_pm") || Is(slug, role, "cell_pm")
    else if key in ["ux_ui", "features/ux_ui"] then
      OfTeam(slug, role, team, "ux_ui") || Is(slug, role, "main_pm") || Is(slug, role, "cell_pm")
    else if key == "self" then
      Is(slug, role, "main_pm") || Is(slug, role, "cell_pm") || Is(slug, role, "auditor") || Is(slug, role, "product_owner")
    else if key == "initiatives" then
      Is(slug, role, "main_pm") || Is(slug, role, "cell_pm") || Is(slug, role, "product_owner")
    else true
  }

  /** Who may write to a folder: the team's documenter to the team's, every documenter to the shared ones, PMs elsewhere. */
  predicate MayWrite(key: string, slug: string, role: string) {
    if key == "internal" then Is(slug, role, "ceo")
    else if key == "standards" then Is(slug, role, "main_pm") || Is(slug, role, "cell_pm") || Is(slug, role, "documenter")
    else if key in ["workflows", "initiatives"] then Is(slug, role, "main_pm")
    else if key == "self" then Is(slug, role, "main_pm") || Is(slug, role, "auditor")
    else if key in ["backend", "features/backend", "bugs/backend"] then Is(slug, role, "be-doc")
    else if key in ["frontend", "features/frontend", "bugs/frontend"] then Is(slug, role, "fe-doc")
    else if key in ["ux_ui", "features/ux_ui", "bugs/ux_ui"] then Is(slug, role, "ux-doc")
    else Is(slug, role, "be-doc") || Is(slug, role, "fe-doc") || Is(slug, role, "ux-doc")
  }

  lemma PlainPermission(slug: string, role: string, team: Option<string>, name: string)
    requires name != "" && name[0] !in "t*"
    ensures Matches(slug, role, team, name) <==> Is(slug, role, name)
  {
  }

  lemma TeamPermission(slug: string, role: string, team: Option<string>, name: string)
    ensures Matches(slug, role, team, "team:" + name) <==> OfTeam(slug, role, team, name)
  {
    var p := "team:" + name;
    assert p[0] == 't' && TEAM <= p && p[|TEAM|..] == name;
  }

  /** Each single permission of the table. */
  lemma Permissions(slug: string, role: string, team: Option<string>)
    ensures Matches(slug, role, team, "*")
    ensures Matches(slug, role, team, "ceo") <==> Is(slug, role, "ceo")
    ensures Matches(slug, role, team, "main_pm") <==> Is(slug, role, "main_pm")
    ensures Matches(slug, role, team, "cell_pm") <==> Is(slug, role, "cell_pm")
    ensures Matches(slug, role, team, "documenter") <==> Is(slug, role, "documenter")
    ensures Matches(slug, role, team, "be-doc") <==> Is(slug, role, "be-doc")
    ensures Matches(slug, role, team, "fe-doc") <==> Is(slug, role, "fe-doc")
    ensures Matches(slug, role, team, "ux-doc") <==> Is(slug, role, "ux-doc")
    ensures Matches(slug, role, team, "auditor") <==> Is(slug, role, "auditor")
    ensures Matches(slug, role, team, "product_owner") <==> Is(slug, role, "product_owner")
    ensures Matches(slug, role, team, "team:backend") <==> OfTeam(slug, role, team, "backend")
    ensures Matches(slug, role, team, "team:frontend") <==> OfTeam(slug, role, team, "frontend")
    ensures Matches(slug, role, team, "team:ux_ui") <==> OfTeam(slug, role, team, "ux_ui")
  {
    TeamPermission(slug, role, team, "backend");
    TeamPermission(slug, role, team, "frontend");
    TeamPermission(slug, role, team, "ux_ui");
    assert "team:" + "backend" == "team:backend" && "team:" + "frontend" == "team:frontend" && "team:" + "ux_ui" == "team:ux_ui";
    PermissionsPlain(slug, role, team);
  }

  lemma PermissionsPlain(slug: string, role: string, team: Option<string>)
    ensures Matches(slug, role, team, "ceo") <==> Is(slug, role, "ceo")
    ensures Matches(slug, role, team, "main_pm") <==> Is(slug, role, "main_pm")
    ensures Matches(slug, role, team, "cell_pm") <==> Is(slug, role, "cell_pm")
    ensures Matches(slug, role, team, "documenter") <==> Is(slug, role, "documenter")
    ensures Matches(slug, role, team, "be-doc") <==> Is(slug, role, "be-doc")
    ensures Matches(slug, role, team, "fe-doc") <==> Is(slug, role, "fe-doc")
    ensures Matches(slug, role, team, "ux-doc") <==> Is(slug, role, "ux-doc")
    ensures Matches(slug, role, team, "auditor") <==> Is(slug, role, "auditor")
    ensures Matches(slug, role, team, "product_owner") <==> Is(slug, role, "product_owner")
  {
    hide Matches, Is;
    PlainPermission(slug, role, team, "ceo");
    PlainPermission(slug, role, team, "main_pm");
    PlainPermission(slug, role, team, "cell_pm");
    PlainPermission(slug, role, team, "documenter");
    PlainPermission(slug, role, team, "be-doc");
    PlainPermission(slug, role, team, "fe-doc");
    PlainPermission(slug, role, team, "ux-doc");
    PlainPermission(slug, role, team, "auditor");
    PlainPermission(slug, role, team, "product_owner");
  }

  lemma AnyOf(slug: string, role: string, team: Option<string>, a: string, b: string, c: string, d: string)
    ensures MatchesAny(slug, role, team, [a]) <==> Matches(slug, role, team, a)
    ensures MatchesAny(slug, role, team, [a, b]) <==> Matches(slug, role, team, a) || Matches(slug, role, team, b)
    ensures MatchesAny(slug, role, team, [a, b, c]) <==>
            Matches(slug, role, team, a) || Matches(slug, role, team, b) || Matches(slug, role, team, c)
    ensures MatchesAny(slug, role, team, [a, b, c, d]) <==>
            || Matches(slug, role, team, a) || Matches(slug, role, team, b)
            || Matches(slug, role, team, c) || Matches(slug, role, team, d)
  {
    hide Matches;
    assert a in [a] && a in [a, b] && b in [a, b] && a in [a, b, c] && b in [a, b, c] && c in [a, b, c];
    assert a in [a, b, c, d] && b in [a, b, c, d] && c in [a, b, c, d] && d in [a, b, c, d];
  }

  lemma NobodyMatches(slug: string, role: string, team: Option<string>)
    ensures !MatchesAny(slug, role, team, [])
  {
  }

  ghost predicate Described(r: Rule, slug: string, role: string, team: Option<string>) {
    && (MatchesAny(slug, role, team, r.read) <==> MayRead(r.key, slug, role, team))
    && (MatchesAny(slug, role, team, r.write) <==> MayWrite(r.key, slug, role))
  }

  lemma CeoFolder(i: nat, slug: string, role: string, team: Option<string>)
    requires i == 0
    ensures Described(RULES[i], slug, role, team)
  {
    hide Matches, MatchesAny, Is, OfTeam;
    Permissions(slug, role, team);
    AnyOf(slug, role, team, "ceo", "", "", "");
  }

  lemma StandardsFolder(i: nat, slug: string, role: string, team: Option<string>)
    requires i == 1
    ensures Described(RULES[i], slug, role, team)
  {
    hide Matches, MatchesAny, Is, OfTeam;
    Permissions(slug, role, team);
    AnyOf(slug, role, team, "*", "", "", "");
    AnyOf(slug, role, team, "main_pm", "cell_pm", "documenter", "");
  }

  lemma WorkflowsFolder(i: nat, slug: string, role: string, team: Option<string>)
    requires i == 2
    ensures Described(RULES[i], slug, role, team)
  {
    hide Matches, MatchesAny, Is, OfTeam;
    Permissions(slug, role, team);
    AnyOf(slug, role, team, "*", "", "", "");
    AnyOf(slug, role, team, "main_pm", "", "", "");
  }

  lemma InitiativesFolder(i: nat, slug: string, role: string, team: Option<string>)
    requires i == 15
    ensures Described(RULES[i], slug, role, team)
  {
    hide Matches, MatchesAny, Is, OfTeam;
    Permissions(slug, role, team);
    AnyOf(slug, role, team, "main_pm", "", "", "");
    AnyOf(slug, role, team, "main_pm", "cell_pm", "product_owner", "");
  }

  lemma BackendFolders(i: nat, slug: string, role: string, team: Option<string>)
    requires i in [3, 6]
    ensures Described(RULES[i], slug, role, team)
  {
    hide Matches, MatchesAny, Is, OfTeam;
    Permissions(slug, role, team);
    AnyOf(slug, role, team, "team:backend", "main_pm", "cell_pm", "");
    AnyOf(slug, role, team, "be-doc", "", "", "");
  }

  lemma FrontendFolders(i: nat, slug: string, role: string, team: Option<string>)
    requires i in [4, 7]
    ensures Described(RULES[i], slug, role, team)
  {
    hide Matches, MatchesAny, Is, OfTeam;
    Permissions(slug, role, team);
    AnyOf(slug, role, team, "team:frontend", "main_pm", "cell_pm", "");
    AnyOf(slug, role, team, "fe-doc", "", "", "");
  }

  lemma DesignFolders(i: nat, slug: string, role: string, team: Option<string>)
    requires i in [5, 8]
    ensures Described(RULES[i], slug, role, team)
  {
    hide Matches, MatchesAny, Is, OfTeam;
    Permissions(slug, role, team);
    AnyOf(slug, role, team, "team:ux_ui", "main_pm", "cell_pm", "");
    AnyOf(slug, role, team, "ux-doc", "", "", "");
  }

  lemma SharedFolders(i: nat, slug: string, role: string, team: Option<string>)
    requires i in [9, 13]
    ensures Described(RULES[i], slug, role, team)
  {
    hide Matches, MatchesAny, Is, OfTeam;
    Permissions(slug, role, team);
    AnyOf(slug, role, team, "*", "", "", "");
    AnyOf(slug, role, team, "be-doc", "fe-doc", "ux-doc", "");
  }

  lemma BugFolders(i: nat, slug: string, role: string, team: Option<string>)
    requires i in [10, 11, 12]
    ensures Described(RULES[i], slug, role, team)
  {
    hide Matches, MatchesAny, Is, OfTeam;
    Permissions(slug, role, team);
    AnyOf(slug, role, team, "*", "", "", "");
    AnyOf(slug, role, team, "be-doc", "", "", "");
    AnyOf(slug, role, team, "fe-doc", "", "", "");
    AnyOf(slug, role, team, "ux-doc", "", "", "");
  }

  lemma SelfFolder(i: nat, slug: string, role: string, team: Option<string>)
    requires i == 14
    ensures Described(RULES[i], slug, role, team)
  {
    hide Matches, MatchesAny, Is, OfTeam;
    Permissions(slug, role, team);
    AnyOf(slug, role, team, "main_pm", "cell_pm", "auditor", "product_owner");
    AnyOf(slug, role, team, "main_pm", "auditor", "", "");
  }

  /** The table, row by row: who reads and who writes each folder. */
  lemma EveryRule(r: Rule, slug: string, role: string, team: Option<string>)
    requires r in RULES
    ensures Described(r, slug, role, team)
  {
    hide Described;
    var i :| 0 <= i < |RULES| && RULES[i] == r;
    if i == 0 {
      CeoFolder(i, slug, role, team);
    } else if i == 1 {
      StandardsFolder(i, slug, role, team);
    } else if i == 2 {
      WorkflowsFolder(i, slug, role, team);
    } else if i == 15 {
      InitiativesFolder(i, slug, role, team);
    } else if i in [3, 6] {
      BackendFolders(i, slug, role, team);
    } else if i in [4, 7] {
      FrontendFolders(i, slug, role, team);
    } else if i in [5, 8] {
      DesignFolders(i, slug, role, team);
    } else if i in [9, 13] {
      SharedFolders(i, slug, role, team);
    } else if i in [10, 11, 12] {
      BugFolders(i, slug, role, team);
    } else {
      SelfFolder(i, slug, role, team);
    }
  }

  // ---- How paths are spelt ----

  const LEADS := ["", "/", "docs/", "/docs/", "app/docs/", "/app/docs/"]

  lemma SkipNothing(x: string)
    requires x != "" && x[0] !in "/ad"
    ensures StripPathPrefixes(x) == x
  {
  }

  lemma SkipDocs(x: string)
    ensures StripPathPrefixes("docs/" + x) == x && StripPathPrefixes("app/docs/" + x) == x
  {
    var d, y := "docs/" + x, "app/docs/" + x;
    assert d[0] == 'd' && d[5..] == x && y[0] == 'a' && y[4..] == d;
  }

  lemma SkipLead(lead: string, x: string)
    requires lead in LEADS && x != "" && x[0] !in "/ad"
    ensures StripPathPrefixes(lead + x) == x
  {
    hide StripPathPrefixes;
    var d, y := "docs/" + x, "app/docs/" + x;
    SkipNothing(x);
    SkipDocs(x);
    SkipSlash(x);
    SkipSlash(d);
    SkipSlash(y);
    assert "" + x == x && "/docs/" + x == "/" + d && "/app/docs/" + x == "/" + y;
  }

  lemma SkipSlash(x: string)
    ensures StripPathPrefixes("/" + x) == StripPathPrefixes(x)
  {
    assert ("/" + x)[1..] == x;
  }

  /** A name of one component, or of two below `features` or `bugs`. */
  predicate TopLevel(key: string) {
    '/' !in key && key !in ["features", "bugs"]
  }

  predicate Nested(key: string, a: string, b: string) {
    key == a + "/" + b && a in ["features", "bugs"] && '/' !in b
  }

  lemma {:induction false} FirstParts(x: string, rest: string)
    requires '/' !in x
    ensures SplitOn(x + "/" + rest, '/') == [x] + SplitOn(rest, '/')
  {
    SplitAppendLast(x, '/', rest);
  }

  lemma NormalizesTop(lead: string, key: string, rest: string)
    requires lead in LEADS && key != "" && key[0] !in "/ad" && TopLevel(key)
    ensures NormalizePath(lead + (key + "/" + rest)) == key
  {
    hide StripPathPrefixes;
    SkipLead(lead, key + "/" + rest);
    FirstParts(key, rest);
  }

  lemma NormalizesNested(lead: string, key: string, a: string, b: string, rest: string)
    requires lead in LEADS && Nested(key, a, b)
    ensures NormalizePath(lead + (key + "/" + rest)) == key
  {
    hide StripPathPrefixes, SplitOn;
    assert "features"[0] == 'f' && "bugs"[0] == 'b' && '/' !in "features" && '/' !in "bugs";
    var x := key + "/" + rest;
    SkipLead(lead, x);
    FirstParts(b, rest);
    FirstParts(a, b + "/" + rest);
    assert x == a + "/" + (b + "/" + rest);
  }

  lemma TopLevelNames(key: string)
    requires key in ["internal", "standards", "workflows", "backend", "frontend", "ux_ui", "self", "initiatives"]
    ensures key != "" && key[0] !in "/ad" && TopLevel(key)
  {
  }

  lemma NestedIs(a: string, b: string)
    requires a in ["features", "bugs"] && '/' !in b
    ensures Nested(a + "/" + b, a, b)
  {
  }

  lemma FeatureNames(key: string)
    requires key in ["features/backend", "features/frontend", "features/ux_ui", "features/shared"]
    ensures exists a, b :: Nested(key, a, b)
  {
    hide Nested;
    if key == "features/backend" {
      SlashFree("backend");
      NestedIs("features", "backend");
      assert key == "features" + "/" + "backend";
    } else if key == "features/frontend" {
      SlashFree("frontend");
      NestedIs("features", "frontend");
      assert key == "features" + "/" + "frontend";
    } else if key == "features/ux_ui" {
      SlashFree("ux_ui");
      NestedIs("features", "ux_ui");
      assert key == "features" + "/" + "ux_ui";
    } else {
      SlashFree("shared");
      NestedIs("features", "shared");
      assert key == "features" + "/" + "shared";
    }
  }

  lemma BugNames(key: string)
    requires key in ["bugs/backend", "bugs/frontend", "bugs/ux_ui", "bugs/resolved"]
    ensures exists a, b :: Nested(key, a, b)
  {
    hide Nested;
    if key == "bugs/backend" {
      SlashFree("backend");
      NestedIs("bugs", "backend");
      assert key == "bugs" + "/" + "backend";
    } else if key == "bugs/frontend" {
      SlashFree("frontend");
      NestedIs("bugs", "frontend");
      assert key == "bugs" + "/" + "frontend";
    } else if key == "bugs/ux_ui" {
      SlashFree("ux_ui");
      NestedIs("bugs", "ux_ui");
      assert key == "bugs" + "/" + "ux_ui";
    } else {
      SlashFree("resolved");
      NestedIs("bugs", "resolved");
      assert key == "bugs" + "/" + "resolved";
    }
  }

  lemma SlashFree(name: string)
    requires name in ["backend", "frontend", "ux_ui", "shared", "resolved"]
    ensures '/' !in name
  {
  }

  lemma NestedNames(r: Rule)
    requires r in RULES
    ensures r.key in ["internal", "standards", "workflows", "backend", "frontend", "ux_ui", "self", "initiatives"]
         || exists a, b :: Nested(r.key, a, b)
  {
    hide Nested;
    var i :| 0 <= i < |RULES| && RULES[i] == r;
    if 6 <= i < 10 {
      FeatureNames(r.key);
    } else if 10 <= i < 14 {
      BugNames(r.key);
    }
  }

  /** Every spelling of a path below a rule's folder is decided by that rule, and as the list says. */
  lemma SpellingsAgree(agents: Agents, id: string, action: string, lead: string, r: Rule, rest: string)
    requires r in RULES && lead in LEADS
    ensures NormalizePath(lead + (r.key + "/" + rest)) == r.key
    ensures CheckAccess(agents, id, lead + (r.key + "/" + rest), action) <==> r.key in AllowedPaths(agents, id, action)
  {
    hide NormalizePath, CheckAccess, AllowedPaths, Nested, TopLevel;
    NestedNames(r);
    if a, b :| Nested(r.key, a, b) {
      NormalizesNested(lead, r.key, a, b, rest);
    } else {
      TopLevelNames(r.key);
      NormalizesTop(lead, r.key, rest);
    }
    ExactPathsAgree(agents, id, lead + (r.key + "/" + rest), action, r);
  }

  /** What the table grants below a rule's folder. */
  predicate Granted(key: string, slug: string, role: string, team: Option<string>, action: string) {
    (action == "read" && MayRead(key, slug, role, team)) || (action == "write" && MayWrite(key, slug, role))
  }

  lemma GrantedExactly(r: Rule, slug: string, role: string, team: Option<string>, action: string)
    requires r in RULES
    ensures MatchesAny(slug, role, team, Allowed(r, action)) <==> Granted(r.key, slug, role, team, action)
  {
    hide MatchesAny, MayRead, MayWrite;
    EveryRule(r, slug, role, team);
    NobodyMatches(slug, role, team);
  }

  /**
   The policy for every path, by its prefix: the CEO does everything; the root and the CEO's own folder are closed to
   all others; elsewhere the auditor and the main PM read everything, and whoever the table grants the action on a
   folder whose name begins the prefix may do it. Nothing else than reading and writing is granted by the table.
   */
  lemma AccessPolicy(agents: Agents, id: string, path: string, action: string)
    ensures var slug := if id in agents.slugs then agents.slugs[id] else id;
            var team := if slug in agents.teams then Some(agents.teams[slug]) else None;
            var prefix := NormalizePath(path);
            CheckAccess(agents, id, path, action) <==>
            && slug in agents.roles && agents.roles[slug] != ""
            && var role := agents.roles[slug];
               || role == "ceo"
               || (&& prefix != "" && prefix != "internal"
                   && (|| (role in ["auditor", "main_pm"] && action == "read")
                       || exists r :: r in RULES && r.key <= prefix && Granted(r.key, slug, role, team, action)))
  {
    hide NormalizePath, MatchesAny, Granted, Allowed, RULES, RuleFor;
    var slug := Resolve(agents, id);
    var role, team := Lookup(agents.roles, slug), Lookup(agents.teams, slug);
    var prefix := NormalizePath(path);
    if role.Some? && role.value != "" {
      GrantedBelow(prefix, slug, role.value, team, action);
    }
  }

  /** The enumerated list, by the same table. */
  lemma ListPolicy(agents: Agents, id: string, action: string, r: Rule)
    requires r in RULES
    ensures var slug := if id in agents.slugs then agents.slugs[id] else id;
            var team := if slug in agents.teams then Some(agents.teams[slug]) else None;
            r.key in AllowedPaths(agents, id, action) <==>
            && slug in agents.roles && agents.roles[slug] != ""
            && var role := agents.roles[slug];
               || role == "ceo"
               || (&& r.key != "internal"
                   && ((role in ["auditor", "main_pm"] && action == "read") || Granted(r.key, slug, role, team, action)))
  {
    hide AllowedPaths, MatchesAny, Granted, Allowed, RULES;
    var slug := Resolve(agents, id);
    var role, team := Lookup(agents.roles, slug), Lookup(agents.teams, slug);
    ListedIff(agents, id, action, r);
    if role.Some? {
      GrantedExactly(r, slug, role.value, team, action);
    }
  }

  /** The rule that judges a prefix grants what the table grants on the folder whose name begins the prefix. */
  lemma GrantedBelow(prefix: string, slug: string, role: string, team: Option<string>, action: string)
    ensures RuleFor(prefix).Some? && MatchesAny(slug, role, team, Allowed(RuleFor(prefix).value, action)) <==>
            exists r :: r in RULES && r.key <= prefix && Granted(r.key, slug, role, team, action)
  {
    hide MatchesAny, Granted, Allowed, RULES, RuleFor;
    forall r | r in RULES && r.key <= prefix
      ensures RuleFor(prefix) == Some(r)
      ensures MatchesAny(slug, role, team, Allowed(r, action)) <==> Granted(r.key, slug, role, team, action)
    {
      RuleExactly(prefix, r);
      GrantedExactly(r, slug, role, team, action);
    }
    if RuleFor(prefix).Some? {
      RuleExactly(prefix, RuleFor(prefix).value);
    }
  }

  function Slashes(n: nat): string {
    seq(n, _ => '/')
  }

  lemma {:induction false} SkipSlashes(n: nat, x: string)
    requires x == "" || x[0] != '/'
    ensures StripStart(Slashes(n) + x, '/') == x
  {
    var s := Slashes(n) + x;
    if n == 0 {
      assert s == x;
    } else {
      SkipSlashes(n - 1, x);
      assert s[1..] == Slashes(n - 1) + x;
    }
  }

  /**
   The prefix of every path: after any slashes, one `app/` and one `docs/`, what remains is judged by the text before
   its first slash, or its second one below `features` and `bugs`.
   */
  lemma PrefixExactly(n: nat, app: bool, docs: bool, x: string)
    requires var below := (if docs then "docs/" else "") + x;
             var whole := (if app then "app/" else "") + below;
             (whole == "" || whole[0] != '/') && (app || !("app/" <= below)) && (docs || !("docs/" <= x))
    ensures var path := Slashes(n) + (if app then "app/" else "") + (if docs then "docs/" else "") + x;
            && ('/' !in x ==> NormalizePath(path) == x)
            && (forall a, b | '/' !in a && x == a + "/" + b && a !in ["features", "bugs"] :: NormalizePath(path) == a)
            && (forall a, b | a in ["features", "bugs"] && '/' !in b && x == a + "/" + b :: NormalizePath(path) == x)
            && (forall a, b, c | a in ["features", "bugs"] && '/' !in b && x == a + "/" + b + "/" + c ::
                  NormalizePath(path) == a + "/" + b)
  {
    hide StripPathPrefixes, NormalizePath;
    var path := Slashes(n) + (if app then "app/" else "") + (if docs then "docs/" else "") + x;
    PrefixesSkipped(n, app, docs, x);
    SlashFreeParents();
    if '/' !in x {
      FirstIsWhole(path, x);
    }
    forall a, b | '/' !in a && x == a + "/" + b && a !in ["features", "bugs"]
      ensures NormalizePath(path) == a
    {
      FirstIsTop(path, a, b);
    }
    forall a, b | a in ["features", "bugs"] && '/' !in b && x == a + "/" + b
      ensures NormalizePath(path) == x
    {
      FirstIsPair(path, a, b);
    }
    forall a, b, c | a in ["features", "bugs"] && '/' !in b && x == a + "/" + b + "/" + c
      ensures NormalizePath(path) == a + "/" + b
    {
      FirstIsNested(path, a, b, c);
    }
  }

  lemma SlashFreeParents()
    ensures '/' !in "features" && '/' !in "bugs"
  {
  }

  lemma PrefixesSkipped(n: nat, app: bool, docs: bool, x: string)
    requires var below := (if docs then "docs/" else "") + x;
             var whole := (if app then "app/" else "") + below;
             (whole == "" || whole[0] != '/') && (app || !("app/" <= below)) && (docs || !("docs/" <= x))
    ensures StripPathPrefixes(Slashes(n) + (if app then "app/" else "") + (if docs then "docs/" else "") + x) == x
  {
    hide Slashes, StripStart, StripPathPrefixes;
    var below := (if docs then "docs/" else "") + x;
    var whole := (if app then "app/" else "") + below;
    var path := Slashes(n) + (if app then "app/" else "") + (if docs then "docs/" else "") + x;
    assert path == Slashes(n) + whole;
    SkipSlashes(n, whole);
    FoldersSkipped(path, whole, below, x, app, docs);
  }

  lemma FoldersSkipped(path: string, whole: string, below: string, x: string, app: bool, docs: bool)
    requires StripStart(path, '/') == whole
    requires whole == (if app then "app/" + below else below) && below == (if docs then "docs/" + x else x)
    requires (app || !("app/" <= below)) && (docs || !("docs/" <= x))
    ensures StripPathPrefixes(path) == x
  {
    hide StripStart;
    assert app ==> whole[4..] == below;
    assert docs ==> below[5..] == x;
  }

  lemma FirstIsWhole(path: string, x: string)
    requires StripPathPrefixes(path) == x && '/' !in x
    ensures NormalizePath(path) == x
  {
    SplitWhole(x, '/');
  }

  lemma FirstIsTop(path: string, a: string, b: string)
    requires StripPathPrefixes(path) == a + "/" + b && '/' !in a && a !in ["features", "bugs"]
    ensures NormalizePath(path) == a
  {
    hide StripPathPrefixes;
    FirstParts(a, b);
  }

  lemma FirstIsPair(path: string, a: string, b: string)
    requires StripPathPrefixes(path) == a + "/" + b && '/' !in a && '/' !in b && a in ["features", "bugs"]
    ensures NormalizePath(path) == a + "/" + b
  {
    hide StripPathPrefixes, SplitOn;
    SplitWhole(b, '/');
    FirstParts(a, b);
  }

  lemma FirstIsNested(path: string, a: string, b: string, c: string)
    requires StripPathPrefixes(path) == a + "/" + b + "/" + c && '/' !in a && '/' !in b && a in ["features", "bugs"]
    ensures NormalizePath(path) == a + "/" + b
  {
    hide StripPathPrefixes, SplitOn;
    FirstParts(b, c);
    FirstParts(a, b + "/" + c);
    assert a + "/" + b + "/" + c == a + "/" + (b + "/" + c);
  }

  lemma NotesRule()
    ensures RuleFor("internal-notes") == Some(RULES[0])
  {
    hide RuleFor;
    RuleExactly("internal-notes", RULES[0]);
    assert RULES[0].key <= "internal-notes";
  }

  /** A folder whose name only begins like the CEO's can be read by the auditor, though the list excludes its rule. */
  lemma ListIsSkippedSomewhere()
    ensures var agents := Agents(map[], map["auditor" := "auditor"], map["auditor" := "board"]);
            && CheckAccess(agents, "auditor", "internal-notes/a", "read")
            && RuleFor(NormalizePath("internal-notes/a")) == Some(RULES[0])
            && RULES[0].key !in AllowedPaths(agents, "auditor", "read")
  {
    hide NormalizePath, RuleFor, MatchesAny, AllowedPaths;
    var agents := Agents(map[], map["auditor" := "auditor"], map["auditor" := "board"]);
    NotesPath();
    NotesRule();
    ListedIff(agents, "auditor", "read", RULES[0]);
  }

  lemma NotesPath()
    ensures NormalizePath("internal-notes/a") == "internal-notes"
  {
    hide NormalizePath;
    assert "internal-notes/a" == "" + ("internal-notes" + "/" + "a");
    assert TopLevel("internal-notes");
    NormalizesTop("", "internal-notes", "a");
  }
}
