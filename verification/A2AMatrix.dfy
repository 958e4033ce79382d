/** robofleet/agents_config.py: who may message whom directly, the routing hints, and the switchboard's pair list. */
module A2AMatrix {
  import opened OptionType

  datatype Role =
    | Developer | Qa | Documenter | CellPm | MainPm | ProductOwner | HeadMarketing | Auditor
    | PrReviewer | Prompter | Secretary | Ceo | System | Unknown

  datatype Team = Backend | Frontend | UxUi | Board | MainPmTeam | Fullstack | Marketing | SystemTeam

  datatype Row = Row(role: Role, team: Team)

  /** The agent catalogue by slug, and the UUIDs that stand for slugs. */
  datatype Registry = Registry(rows: map<string, Row>, slugs: map<string, string>)

  const BOARD_ROLES: set<Role> := {ProductOwner, HeadMarketing, Auditor}
  const MAIN_PM_TARGETS: set<Role> := {CellPm, MainPm, ProductOwner, HeadMarketing, Auditor}
  const NO_COMMS_ROLES: set<Role> := {Prompter, Secretary}
  const CELL_TEAMS: set<Team> := {Backend, Frontend, UxUi}
  const MAIN_PM := "main-pm"

  function Resolve(reg: Registry, agent: string): string {
    if agent in reg.slugs then reg.slugs[agent] else agent
  }

  /** The sentinel row is excluded from the role and team maps. */
  function RoleOf(reg: Registry, agent: string): Role {
    var s := Resolve(reg, agent);
    if s in reg.rows && reg.rows[s].role != System then reg.rows[s].role else Unknown
  }

  function TeamOf(reg: Registry, agent: string): Option<Team> {
    var s := Resolve(reg, agent);
    if s in reg.rows && reg.rows[s].role != System then Some(reg.rows[s].team) else None
  }

  function PmForTeam(team: Team): Option<string> {
    match team
    case Backend => Some("be-pm")
    case Frontend => Some("fe-pm")
    case UxUi => Some("ux-pm")
    case _ => None
  }

  /** What a refusal tells the sender. */
  datatype Advice =
    | NoCommsSurface(role: Role)
    | CeoIsHuman
    | BoardRoutesThroughMainPm(role: Role)
    | MainPmRoutesThrough(role: Role, pm: Option<string>)
    | EscalateThroughMainPm(role: Role)
    | DifferentCell(agent: string)
    | AuditorObserves
    | ReviewerOnlyOwningPm(role: Role)
    | AskCellPm(agent: string, team: Team, pm: Option<string>, targetPm: Option<string>)
    | RouteUp(role: Role, agent: string, pm: Option<string>)
    | NotPermitted(fromAgent: string, toAgent: string)

  datatype Answer = Allowed | Denied(advice: Advice)

  function CheckCellPm(fromTeam: Option<Team>, toAgent: string, toRole: Role, toTeam: Option<Team>): Answer {
    if toTeam == fromTeam || toRole in {CellPm, MainPm} then Allowed
    else if toRole in BOARD_ROLES then Denied(EscalateThroughMainPm(toRole))
    else Denied(DifferentCell(toAgent))
  }

  function CheckCellMember(fromAgent: string, fromTeam: Team, toAgent: string, toRole: Role, toTeam: Option<Team>): Answer {
    var pm := PmForTeam(fromTeam);
    if toTeam == Some(fromTeam) then Allowed
    else match toTeam
      case Some(t) => Denied(AskCellPm(toAgent, t, pm, PmForTeam(t)))
      case None => Denied(RouteUp(toRole, fromAgent, pm))
  }

  function CheckMainPm(toRole: Role, toTeam: Option<Team>): Answer {
    if toRole in MAIN_PM_TARGETS then Allowed
    else Denied(MainPmRoutesThrough(toRole, if toTeam.Some? then PmForTeam(toTeam.value) else None))
  }

  function CheckCeo(toRole: Role): Answer {
    if toRole in NO_COMMS_ROLES then Denied(NoCommsSurface(toRole)) else Allowed
  }

  function CheckPrReviewer(toRole: Role): Answer {
    if toRole in {CellPm, MainPm} then Allowed else Denied(ReviewerOnlyOwningPm(toRole))
  }

  /** `can_a2a_direct` */
  function Direct(reg: Registry, fromAgent: string, toAgent: string): Answer {
    var fromRole, toRole := RoleOf(reg, fromAgent), RoleOf(reg, toAgent);
    var fromTeam, toTeam := TeamOf(reg, fromAgent), TeamOf(reg, toAgent);
    if fromRole == Ceo then CheckCeo(toRole)
    else if toRole == Ceo then Denied(CeoIsHuman)
    else if fromRole in {ProductOwner, HeadMarketing} then
      if toRole in BOARD_ROLES || toRole == MainPm then Allowed else Denied(BoardRoutesThroughMainPm(toRole))
    else if fromRole == MainPm then CheckMainPm(toRole, toTeam)
    else if fromRole == CellPm then CheckCellPm(fromTeam, toAgent, toRole, toTeam)
    else if fromRole == PrReviewer then CheckPrReviewer(toRole)
    else if fromRole == Auditor then Denied(AuditorObserves)
    else if fromTeam.Some? then CheckCellMember(fromAgent, fromTeam.value, toAgent, toRole, toTeam)
    else Denied(NotPermitted(fromAgent, toAgent))
  }

  predicate May(reg: Registry, fromAgent: string, toAgent: string) {
    Direct(reg, fromAgent, toAgent).Allowed?
  }

  /** The routing hint; a hop is missing where a team has no cell PM. */
  datatype Hint =
    | UseNotify
    | ReviewersReachOwningPm
    | CrossCell(hops: seq<Option<string>>)
    | ToBoard(hops: seq<Option<string>>)
    | UseEscalateUp

  /** `get_a2a_route_hint` */
  function RouteHint(reg: Registry, fromAgent: string, toAgent: string): Hint {
    var fromTeam, toTeam := TeamOf(reg, fromAgent), TeamOf(reg, toAgent);
    if RoleOf(reg, toAgent) == Ceo then UseNotify
    else if RoleOf(reg, fromAgent) == PrReviewer then ReviewersReachOwningPm
    else match fromTeam
      case None => UseEscalateUp
      case Some(f) =>
        if toTeam.Some? && toTeam.value != f then
          CrossCell([Some(fromAgent), PmForTeam(f), Some(MAIN_PM), PmForTeam(toTeam.value), Some(toAgent)])
        else ToBoard([Some(fromAgent), PmForTeam(f), Some(MAIN_PM)])
  }

  /** The rows that the routing rules name: each cell's PM leads its cell, and the main PM is one. */
  predicate WellFormed(reg: Registry) {
    && {"be-pm", "fe-pm", "ux-pm", "main-pm"} !! reg.slugs.Keys
    && {"be-pm", "fe-pm", "ux-pm", "main-pm"} <= reg.rows.Keys
    && reg.rows["be-pm"] == Row(CellPm, Backend) && reg.rows["fe-pm"] == Row(CellPm, Frontend)
    && reg.rows["ux-pm"] == Row(CellPm, UxUi) && reg.rows["main-pm"].role == MainPm
  }

  /** Every hop exists and is allowed by the matrix. */
  predicate Passable(reg: Registry, hops: seq<Option<string>>) {
    && (forall i | 0 <= i < |hops| :: hops[i].Some?)
    && (forall i | 0 <= i < |hops| - 1 :: May(reg, hops[i].value, hops[i + 1].value))
  }

  lemma MainPmRow(reg: Registry, member: string)
    requires WellFormed(reg)
    ensures RoleOf(reg, MAIN_PM) == MainPm
    ensures RoleOf(reg, member) in BOARD_ROLES ==> May(reg, MAIN_PM, member)
  {
  }

  lemma CellPmRow(reg: Registry, t: Team)
    requires WellFormed(reg) && t in CELL_TEAMS
    ensures PmForTeam(t).Some?
    ensures RoleOf(reg, PmForTeam(t).value) == CellPm && TeamOf(reg, PmForTeam(t).value) == Some(t)
    ensures May(reg, PmForTeam(t).value, MAIN_PM) && May(reg, MAIN_PM, PmForTeam(t).value)
  {
    assert RoleOf(reg, MAIN_PM) == MainPm;
  }

  /**
   The route offered between two teams works hop by hop exactly when both teams are cells and the sender is not of the
   board; agents of cells who are neither PMs nor PR reviewers are the case it is for.
   */
  lemma CrossCellRoutePassable(reg: Registry, fromAgent: string, toAgent: string)
    requires WellFormed(reg)
    requires RouteHint(reg, fromAgent, toAgent).CrossCell?
    ensures Passable(reg, RouteHint(reg, fromAgent, toAgent).hops) <==>
            && TeamOf(reg, fromAgent).value in CELL_TEAMS && TeamOf(reg, toAgent).value in CELL_TEAMS
            && RoleOf(reg, fromAgent) !in BOARD_ROLES
  {
    hide WellFormed, May, RoleOf;
    var hops := RouteHint(reg, fromAgent, toAgent).hops;
    var f, t := TeamOf(reg, fromAgent).value, TeamOf(reg, toAgent).value;
    if f in CELL_TEAMS && t in CELL_TEAMS {
      CellPmRow(reg, f);
      CellPmRow(reg, t);
      MayExactly(reg, PmForTeam(t).value, toAgent);
      MayExactly(reg, fromAgent, PmForTeam(f).value);
      assert Passable(reg, hops) <==>
             && May(reg, hops[0].value, hops[1].value) && May(reg, hops[1].value, hops[2].value)
             && May(reg, hops[2].value, hops[3].value) && May(reg, hops[3].value, hops[4].value);
    } else {
      assert hops[1].None? || hops[3].None?;
    }
  }

  /**
   The route towards the board works hop by hop exactly when the sender is of a cell and not of the board; the main PM
   at its end reaches every board member.
   */
  lemma ToBoardRoutePassable(reg: Registry, fromAgent: string, toAgent: string, member: string)
    requires WellFormed(reg)
    requires RouteHint(reg, fromAgent, toAgent).ToBoard?
    ensures Passable(reg, RouteHint(reg, fromAgent, toAgent).hops) <==>
            TeamOf(reg, fromAgent).value in CELL_TEAMS && RoleOf(reg, fromAgent) !in BOARD_ROLES
    ensures RoleOf(reg, member) in BOARD_ROLES ==> May(reg, MAIN_PM, member)
  {
    MainPmRow(reg, member);
    hide WellFormed;
    var hops := RouteHint(reg, fromAgent, toAgent).hops;
    var f := TeamOf(reg, fromAgent).value;
    if f in CELL_TEAMS {
      CellPmRow(reg, f);
      assert May(reg, fromAgent, PmForTeam(f).value) <==> RoleOf(reg, fromAgent) !in BOARD_ROLES;
      assert Passable(reg, hops) <==> May(reg, hops[0].value, hops[1].value) && May(reg, hops[1].value, hops[2].value);
    } else {
      assert hops[1].None?;
    }
  }

  const MEMBER_ROLES: set<Role> := {Developer, Qa, Documenter}

  /** Members of different cells cannot message each other directly, and the hint they get instead can be followed. */
  lemma MembersRouteAround(reg: Registry, fromAgent: string, toAgent: string)
    requires WellFormed(reg)
    requires RoleOf(reg, fromAgent) in MEMBER_ROLES && RoleOf(reg, toAgent) in MEMBER_ROLES
    requires TeamOf(reg, fromAgent).value in CELL_TEAMS && TeamOf(reg, toAgent).value in CELL_TEAMS
    requires TeamOf(reg, fromAgent) != TeamOf(reg, toAgent)
    ensures !May(reg, fromAgent, toAgent)
    ensures RouteHint(reg, fromAgent, toAgent).CrossCell?
    ensures Passable(reg, RouteHint(reg, fromAgent, toAgent).hops)
  {
    hide WellFormed, Passable;
    CrossCellRoutePassable(reg, fromAgent, toAgent);
  }

  /**
   The matrix itself, for every registry and every two agents: the CEO writes to all who can read a message, nobody else
   to the CEO; product and marketing write to the board and the main PM; the main PM to PMs and the board; a cell PM to
   its team and to PMs; a PR reviewer to PMs; the auditor to nobody; everybody else of a team to that team.
   */
  lemma MayExactly(reg: Registry, a: string, b: string)
    ensures var from, to := RoleOf(reg, a), RoleOf(reg, b);
            var sameTeam := TeamOf(reg, a).Some? && TeamOf(reg, a) == TeamOf(reg, b);
            May(reg, a, b) <==>
            || (from == Ceo && to !in {Prompter, Secretary})
            || (to != Ceo &&
                (|| (from in {ProductOwner, HeadMarketing} && to in {ProductOwner, HeadMarketing, Auditor, MainPm})
                 || (from == MainPm && to in {CellPm, MainPm, ProductOwner, HeadMarketing, Auditor})
                 || (from == CellPm && (sameTeam || to in {CellPm, MainPm}))
                 || (from == PrReviewer && to in {CellPm, MainPm})
                 || (from !in {Ceo, ProductOwner, HeadMarketing, MainPm, CellPm, PrReviewer, Auditor} && sameTeam)))
  {
  }

  /** An agent is what its row says; one without a row, or a row of the system's, has no role and no team. */
  lemma RolesAreRows(reg: Registry, agent: string)
    ensures var slug := if agent in reg.slugs then reg.slugs[agent] else agent;
            if slug in reg.rows && reg.rows[slug].role != System
            then RoleOf(reg, agent) == reg.rows[slug].role && TeamOf(reg, agent) == Some(reg.rows[slug].team)
            else RoleOf(reg, agent) == Unknown && TeamOf(reg, agent) == None
  {
  }

  /** Who has no row writes to nobody, and only the CEO writes to it; the system's own row counts as none. */
  lemma StrangersAreSilent(reg: Registry, stranger: string, other: string)
    requires stranger !in reg.slugs
    requires stranger in reg.rows ==> reg.rows[stranger].role == System
    ensures !May(reg, stranger, other)
    ensures May(reg, other, stranger) <==> RoleOf(reg, other) == Ceo
  {
    RolesAreRows(reg, stranger);
    MayExactly(reg, stranger, other);
    MayExactly(reg, other, stranger);
  }

  /** A UUID stands for its slug, as sender and as receiver. */
  lemma UuidsStandForSlugs(reg: Registry, uuid: string, slug: string, other: string)
    requires uuid in reg.slugs && reg.slugs[uuid] == slug && slug !in reg.slugs
    ensures May(reg, uuid, other) <==> May(reg, slug, other)
    ensures May(reg, other, uuid) <==> May(reg, other, slug)
  {
    hide CheckCeo, CheckMainPm, CheckPrReviewer, BOARD_ROLES;
  }

  /** Which hint is given, and the stations it names: through the sender's own PM and the main PM, then the target's PM. */
  lemma HintExactly(reg: Registry, a: string, b: string)
    requires WellFormed(reg)
    ensures var hint := RouteHint(reg, a, b);
            var f, t := TeamOf(reg, a), TeamOf(reg, b);
            && (hint == UseNotify <==> RoleOf(reg, b) == Ceo)
            && (hint == ReviewersReachOwningPm <==> RoleOf(reg, b) != Ceo && RoleOf(reg, a) == PrReviewer)
            && (hint == UseEscalateUp <==> RoleOf(reg, b) != Ceo && RoleOf(reg, a) != PrReviewer && f.None?)
            && (hint.CrossCell? ==>
                  && f.Some? && t.Some? && f != t && |hint.hops| == 5
                  && hint.hops[0] == Some(a) && hint.hops[4] == Some(b)
                  && Leads(reg, hint.hops[1], f.value) && IsMainPm(reg, hint.hops[2]) && Leads(reg, hint.hops[3], t.value))
            && (hint.ToBoard? ==>
                  && f.Some? && (t.None? || f == t) && |hint.hops| == 3
                  && hint.hops[0] == Some(a) && Leads(reg, hint.hops[1], f.value) && IsMainPm(reg, hint.hops[2]))
  {
    if TeamOf(reg, a).Some? {
      StationLeads(reg, TeamOf(reg, a).value);
    }
    if TeamOf(reg, b).Some? {
      StationLeads(reg, TeamOf(reg, b).value);
    }
    MainPmRow(reg, a);
    hide WellFormed, PmForTeam, Leads;
  }

  /** The station is the PM of the team, and missing for a team that is no cell. */
  predicate Leads(reg: Registry, station: Option<string>, team: Team) {
    if team in {Backend, Frontend, UxUi}
    then station.Some? && RoleOf(reg, station.value) == CellPm && TeamOf(reg, station.value) == Some(team)
    else station.None?
  }

  predicate IsMainPm(reg: Registry, station: Option<string>) {
    station.Some? && RoleOf(reg, station.value) == MainPm
  }

  lemma StationLeads(reg: Registry, team: Team)
    requires WellFormed(reg)
    ensures Leads(reg, PmForTeam(team), team)
  {
    if team in CELL_TEAMS {
      CellPmRow(reg, team);
    }
  }

  /** A refusal between members of different cells names both cells' PMs; one from the main PM, the PM of the target. */
  lemma RefusalNamesThePms(reg: Registry, a: string, b: string)
    requires WellFormed(reg) && TeamOf(reg, b).Some? && Direct(reg, a, b).Denied?
    ensures var advice := Direct(reg, a, b).advice;
            && (advice.AskCellPm? ==>
                  && TeamOf(reg, a).Some? && advice.agent == b && Some(advice.team) == TeamOf(reg, b)
                  && Leads(reg, advice.pm, TeamOf(reg, a).value) && Leads(reg, advice.targetPm, advice.team))
            && (advice.MainPmRoutesThrough? ==>
                  advice.role == RoleOf(reg, b) && Leads(reg, advice.pm, TeamOf(reg, b).value))
            && (RoleOf(reg, a) in MEMBER_ROLES && RoleOf(reg, b) != Ceo ==> advice.AskCellPm?)
            && (RoleOf(reg, a) == MainPm && RoleOf(reg, b) != Ceo ==> advice.MainPmRoutesThrough?)
  {
    StationLeads(reg, TeamOf(reg, b).value);
    if TeamOf(reg, a).Some? {
      StationLeads(reg, TeamOf(reg, a).value);
    }
    MemberHasTeam(reg, a);
    hide WellFormed, PmForTeam, Leads;
  }

  lemma MemberHasTeam(reg: Registry, a: string)
    ensures RoleOf(reg, a) in MEMBER_ROLES ==> TeamOf(reg, a).Some?
  {
  }
}
