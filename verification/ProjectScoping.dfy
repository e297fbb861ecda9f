// Migration 94: project-scoped instances of super agents and teams
// (backend/app/db/migrations.py, _migrate_94_project_scoped_instances, data part).
//
// A query with LIMIT 1 and no order returns the first match in table order.
module ProjectScoping {
  import opened Prelude

  type Id = string

  datatype Project = Project(id: Id, manager: Option<Id>, created: int)

  datatype Member = Member(team: Id, superAgent: Option<Id>)

  datatype Session = Session(superAgent: Id, active: bool, instance: Option<Id>)

  // A row of either instance table; `template` is a super agent or a team.
  datatype Instance = Instance(project: Id, template: Id)

  type Instances = map<Id, Instance>

  // The tables the migration only reads.
  datatype World = World(projects: seq<Project>, projectTeams: seq<(Id, Id)>, members: seq<Member>,
                         superAgents: set<Id>, teams: set<Id>)

  function ProjectIds(w: World): set<Id> { set p | p in w.projects :: p.id }

  // The foreign keys of the schema.
  ghost predicate Referential(w: World, sessions: map<Id, Session>) {
    && (forall k :: 0 <= k < |w.projectTeams| ==> w.projectTeams[k].0 in ProjectIds(w))
    && (forall k :: 0 <= k < |w.projectTeams| ==> w.projectTeams[k].1 in w.teams)
    && (forall m :: m in w.members && m.superAgent.Some? ==> m.superAgent.value in w.superAgents)
    && (forall s :: s in sessions ==> sessions[s].superAgent in w.superAgents)
  }

  // UNIQUE(project_id, template).
  ghost predicate Unique(rows: Instances) {
    forall i, j :: i in rows && j in rows && rows[i] == rows[j] ==> i == j
  }

  ghost predicate Has(rows: Instances, x: Instance) { exists i :: i in rows && rows[i] == x }

  ghost predicate Extends(before: Instances, after: Instances) {
    forall i :: i in before ==> i in after && after[i] == before[i]
  }

  // ------------------------------------------------------------ the project of a super agent

  function ManagedBy(projects: seq<Project>, sa: Id): Option<Id> {
    if projects == [] then None
    else if projects[0].manager == Some(sa) then Some(projects[0].id)
    else ManagedBy(projects[1..], sa)
  }

  predicate IsMember(members: seq<Member>, team: Id, sa: Id) { Member(team, Some(sa)) in members }

  function ThroughTeam(projectTeams: seq<(Id, Id)>, members: seq<Member>, sa: Id): Option<Id> {
    if projectTeams == [] then None
    else if IsMember(members, projectTeams[0].1, sa) then Some(projectTeams[0].0)
    else ThroughTeam(projectTeams[1..], members, sa)
  }

  // ORDER BY created_at ASC LIMIT 1.
  function Oldest(projects: seq<Project>): Option<Project> {
    if projects == [] then None
    else
      var rest := Oldest(projects[1..]);
      if rest.Some? && rest.value.created < projects[0].created then rest else Some(projects[0])
  }

  function Chosen(w: World, sa: Id): Option<Id> {
    var managed := ManagedBy(w.projects, sa);
    if managed.Some? then managed
    else
      var through := ThroughTeam(w.projectTeams, w.members, sa);
      if through.Some? then through
      else if Oldest(w.projects).Some? then Some(Oldest(w.projects).value.id) else None
  }

  lemma {:induction false} ManagedByIsProject(projects: seq<Project>, sa: Id)
    ensures var r := ManagedBy(projects, sa);
            r.Some? ==> exists p :: p in projects && p.manager == Some(sa) && p.id == r.value
    ensures ManagedBy(projects, sa).None? ==> forall p :: p in projects ==> p.manager != Some(sa)
  {
    if projects != [] {
      ManagedByIsProject(projects[1..], sa);
    }
  }

  lemma {:induction false} ThroughTeamIsProject(pts: seq<(Id, Id)>, members: seq<Member>, sa: Id)
    ensures var r := ThroughTeam(pts, members, sa);
            r.Some? ==> exists k :: 0 <= k < |pts| && Member(pts[k].1, Some(sa)) in members && pts[k].0 == r.value
    ensures ThroughTeam(pts, members, sa).None? ==>
              forall k :: 0 <= k < |pts| ==> Member(pts[k].1, Some(sa)) !in members
  {
    if pts != [] && !IsMember(members, pts[0].1, sa) {
      var rest := pts[1..];
      ThroughTeamIsProject(rest, members, sa);
      forall k | 0 < k < |pts| ensures pts[k] == rest[k - 1] {}
      var r := ThroughTeam(rest, members, sa);
      if r.Some? {
        var k :| 0 <= k < |rest| && Member(rest[k].1, Some(sa)) in members && rest[k].0 == r.value;
        assert pts[k + 1] == rest[k];
      }
    }
  }

  lemma {:induction false} OldestIsProject(projects: seq<Project>)
    ensures var r := Oldest(projects);
            && (r.None? <==> projects == [])
            && (r.Some? ==> r.value in projects && forall p :: p in projects ==> r.value.created <= p.created)
  {
    if projects != [] {
      OldestIsProject(projects[1..]);
    }
  }

  // By fields, the project that is right for a super agent: one it manages, else one with a team it is
  // a member of, else the oldest.
  ghost predicate IsRightProject(w: World, sa: Id, project: Id) {
    if exists p :: p in w.projects && p.manager == Some(sa) then
      exists p :: p in w.projects && p.manager == Some(sa) && p.id == project
    else if exists k :: 0 <= k < |w.projectTeams| && Member(w.projectTeams[k].1, Some(sa)) in w.members then
      exists k :: && 0 <= k < |w.projectTeams| && Member(w.projectTeams[k].1, Some(sa)) in w.members
                  && w.projectTeams[k].0 == project
    else
      exists p :: p in w.projects && p.id == project && forall q :: q in w.projects ==> p.created <= q.created
  }

  lemma ChosenIsRight(w: World, sa: Id)
    ensures Chosen(w, sa).Some? ==> IsRightProject(w, sa, Chosen(w, sa).value)
  {
    ManagedByIsProject(w.projects, sa);
    ThroughTeamIsProject(w.projectTeams, w.members, sa);
    OldestIsProject(w.projects);
    hide ManagedBy, ThroughTeam, Oldest;
  }

  // Every super agent gets an existing project, unless there is none at all.
  lemma ChosenIsProject(w: World, sessions: map<Id, Session>, sa: Id)
    requires Referential(w, sessions)
    ensures Chosen(w, sa).Some? <==> w.projects != []
    ensures Chosen(w, sa).Some? ==> Chosen(w, sa).value in ProjectIds(w)
  {
    ManagedByIsProject(w.projects, sa);
    ThroughTeamIsProject(w.projectTeams, w.members, sa);
    OldestIsProject(w.projects);
    hide ManagedBy, ThroughTeam, Oldest;
    var through := ThroughTeam(w.projectTeams, w.members, sa);
    if through.Some? {
      var k :| 0 <= k < |w.projectTeams| && w.projectTeams[k].0 == through.value;
      assert w.projectTeams[k].0 in ProjectIds(w);
    }
  }

  // ------------------------------------------------------------ what the migration establishes

  // An active session points to the instance of its own super agent in the chosen project.
  ghost predicate SessionDone(w: World, psa: Instances, s: Session) {
    s.active && Chosen(w, s.superAgent).Some? ==>
      && s.instance.Some?
      && s.instance.value in psa
      && psa[s.instance.value] == Instance(Chosen(w, s.superAgent).value, s.superAgent)
  }

  ghost predicate SessionsDone(w: World, psa: Instances, sessions: map<Id, Session>) {
    forall s :: s in sessions ==> SessionDone(w, psa, sessions[s])
  }

  // The team of project_teams row k has its instance, and so have its super agents.
  ghost predicate TeamDone(w: World, psa: Instances, pti: Instances, k: nat)
    requires k < |w.projectTeams|
  {
    var (project, team) := w.projectTeams[k];
    && Has(pti, Instance(project, team))
    && (forall m :: m in w.members && m.team == team && m.superAgent.Some? ==>
          Has(psa, Instance(project, m.superAgent.value)))
  }

  ghost predicate Complete(w: World, psa: Instances, pti: Instances, sessions: map<Id, Session>) {
    && SessionsDone(w, psa, sessions)
    && (forall k :: 0 <= k < |w.projectTeams| ==> TeamDone(w, psa, pti, k))
  }

  // A super agent instance somebody needs: an active session or a team of the project.
  ghost predicate Needed(w: World, sessions: map<Id, Session>, x: Instance) {
    || (exists s :: s in sessions && sessions[s].active && Chosen(w, sessions[s].superAgent) == Some(x.project)
                    && sessions[s].superAgent == x.template)
    || (exists k :: 0 <= k < |w.projectTeams| && w.projectTeams[k].0 == x.project
                    && IsMember(w.members, w.projectTeams[k].1, x.template))
  }

  // Nothing but the instance of active sessions may change.
  ghost predicate SameButInstance(before: map<Id, Session>, after: map<Id, Session>) {
    && after.Keys == before.Keys
    && (forall s :: s in before ==>
          && after[s] == before[s].(instance := after[s].instance)
          && (!before[s].active ==> after[s] == before[s]))
  }

  function Pointing(sessions: map<Id, Session>, sa: Id, instance: Id): map<Id, Session> {
    map s | s in sessions ::
      if sessions[s].superAgent == sa && sessions[s].active then sessions[s].(instance := Some(instance))
      else sessions[s]
  }

  // ------------------------------------------------------------ the migration

  // Generate until the id is unused.
  method UniqueId(taken: set<Id>) returns (id: Id)
    ensures id !in taken
  {
    id := "";
    var longer := taken;
    while id in taken
      invariant forall x :: x in taken && |x| >= |id| ==> x in longer
      decreases longer
    {
      longer := longer - {id};
      id := id + "x";
    }
  }

  // SELECT, then INSERT when nothing was found.
  method Ensure(rows: Instances, x: Instance) returns (id: Id, rows': Instances)
    requires Unique(rows)
    ensures Unique(rows') && Extends(rows, rows')
    ensures id in rows' && rows'[id] == x
    ensures Has(rows, x) ==> rows' == rows
    ensures !Has(rows, x) ==> id !in rows && rows' == rows[id := x]
  {
    if i :| i in rows && rows[i] == x {
      return i, rows;
    }
    id := UniqueId(rows.Keys);
    rows' := rows[id := x];
  }

  // ------------------------------------------------------------ step 5a

  ghost predicate SessionsDoneExcept(w: World, psa: Instances, sessions: map<Id, Session>, todo: set<Id>) {
    forall s :: s in sessions && sessions[s].superAgent !in todo ==> SessionDone(w, psa, sessions[s])
  }

  ghost predicate UntouchedFor(before: map<Id, Session>, after: map<Id, Session>, todo: set<Id>) {
    forall s :: s in before && s in after && before[s].superAgent in todo ==> after[s] == before[s]
  }

  // Rows that were not there before are needed.
  ghost predicate OnlyNeeded(w: World, before: Instances, after: Instances, sessions: map<Id, Session>) {
    forall i :: i in after && i !in before ==> Needed(w, sessions, after[i])
  }

  // Effect of one turn of step 5a on the instance rows and the sessions.
  ghost predicate Attached(w: World, sa: Id, psa: Instances, psa': Instances,
                           sessions: map<Id, Session>, sessions': map<Id, Session>) {
    && Extends(psa, psa')
    && (Chosen(w, sa).None? ==> psa' == psa && sessions' == sessions)
    && (Chosen(w, sa).Some? ==>
          var x := Instance(Chosen(w, sa).value, sa);
          && (Has(psa, x) ==> psa' == psa)
          && (forall i :: i in psa' && i !in psa ==> psa'[i] == x)
          && exists i :: i in psa' && psa'[i] == x && sessions' == Pointing(sessions, sa, i))
  }

  lemma AttachedDone(w: World, sa: Id, psa: Instances, psa': Instances,
                     sessions: map<Id, Session>, sessions': map<Id, Session>,
                     sessions0: map<Id, Session>, todo: set<Id>)
    requires Attached(w, sa, psa, psa', sessions, sessions') && sa in todo
    requires SessionsDoneExcept(w, psa, sessions, todo)
    requires SameButInstance(sessions0, sessions) && UntouchedFor(sessions0, sessions, todo)
    ensures SessionsDoneExcept(w, psa', sessions', todo - {sa})
    ensures SameButInstance(sessions0, sessions') && UntouchedFor(sessions0, sessions', todo - {sa})
  {
    hide Chosen, Has;
    forall s | s in sessions' && sessions'[s].superAgent !in todo - {sa} ensures SessionDone(w, psa', sessions'[s]) {
      assert s in sessions && sessions[s].superAgent == sessions'[s].superAgent;
      if sessions[s].superAgent != sa {
        assert sessions'[s] == sessions[s] && SessionDone(w, psa, sessions[s]);
      }
    }
  }

  // Somebody's session is active, so the new row is needed.
  lemma AttachedNeeded(w: World, sa: Id, psa0: Instances, psa: Instances, psa': Instances, sessions: map<Id, Session>,
                       sessions': map<Id, Session>, sessions0: map<Id, Session>)
    requires Attached(w, sa, psa, psa', sessions, sessions') && Extends(psa0, psa)
    requires exists s :: s in sessions0 && sessions0[s].active && sessions0[s].superAgent == sa
    requires OnlyNeeded(w, psa0, psa, sessions0)
    ensures Extends(psa0, psa') && OnlyNeeded(w, psa0, psa', sessions0)
  {
    hide Chosen, Has, Pointing;
    forall i | i in psa' && i !in psa0 ensures Needed(w, sessions0, psa'[i]) {
      if i in psa {
        assert psa'[i] == psa[i];
      } else {
        var s :| s in sessions0 && sessions0[s].active && sessions0[s].superAgent == sa;
        assert Chosen(w, sessions0[s].superAgent) == Some(psa'[i].project);
      }
    }
  }

  lemma AttachedNothing(w: World, sa: Id, psa: Instances, psa': Instances,
                        sessions: map<Id, Session>, sessions': map<Id, Session>)
    requires Attached(w, sa, psa, psa', sessions, sessions')
    ensures Chosen(w, sa).None? ==> psa' == psa && sessions' == sessions
  {
  }

  // When the sessions are done already, nothing changes.
  lemma AttachedAgain(w: World, sa: Id, psa: Instances, psa': Instances,
                      sessions: map<Id, Session>, sessions': map<Id, Session>)
    requires Attached(w, sa, psa, psa', sessions, sessions')
    requires Unique(psa) && SessionsDone(w, psa, sessions)
    requires exists s :: s in sessions && sessions[s].active && sessions[s].superAgent == sa
    ensures psa' == psa && sessions' == sessions
  {
    hide Chosen;
    if Chosen(w, sa).Some? {
      var x := Instance(Chosen(w, sa).value, sa);
      var s :| s in sessions && sessions[s].active && sessions[s].superAgent == sa;
      assert SessionDone(w, psa, sessions[s]);
      assert Has(psa, x);
      var i :| i in psa' && psa'[i] == x && sessions' == Pointing(sessions, sa, i);
      forall t | t in sessions ensures sessions'[t] == sessions[t] {
        assert SessionDone(w, psa, sessions[t]);
      }
    }
  }

  lemma SessionsDoneGrow(w: World, psa: Instances, psa': Instances, sessions: map<Id, Session>)
    requires SessionsDone(w, psa, sessions) && Extends(psa, psa')
    ensures SessionsDone(w, psa', sessions)
  {
    hide Chosen;
    forall s | s in sessions ensures SessionDone(w, psa', sessions[s]) {
      assert SessionDone(w, psa, sessions[s]);
    }
  }

  // ------------------------------------------------------------ step 5b

  // Team k has its instances, for the first m members of the table.
  ghost predicate TeamPartlyDone(w: World, psa: Instances, k: nat, m: nat)
    requires k < |w.projectTeams| && m <= |w.members|
  {
    var (project, team) := w.projectTeams[k];
    forall j :: 0 <= j < m && w.members[j].team == team && w.members[j].superAgent.Some? ==>
      Has(psa, Instance(project, w.members[j].superAgent.value))
  }

  ghost predicate TeamsDone(w: World, psa: Instances, pti: Instances, n: nat)
    requires n <= |w.projectTeams|
  {
    forall k :: 0 <= k < n ==> TeamDone(w, psa, pti, k)
  }

  lemma HasGrows(rows: Instances, rows': Instances, x: Instance)
    requires Extends(rows, rows') && Has(rows, x)
    ensures Has(rows', x)
  {
    var i :| i in rows && rows[i] == x;
    assert rows'[i] == x;
  }

  lemma TeamsDoneGrow(w: World, psa: Instances, psa': Instances, pti: Instances, pti': Instances, n: nat)
    requires n <= |w.projectTeams| && TeamsDone(w, psa, pti, n)
    requires Extends(psa, psa') && Extends(pti, pti')
    ensures TeamsDone(w, psa', pti', n)
  {
    hide Has, Extends;
    forall k | 0 <= k < n ensures TeamDone(w, psa', pti', k) {
      var (project, team) := w.projectTeams[k];
      assert TeamDone(w, psa, pti, k);
      HasGrows(pti, pti', Instance(project, team));
      forall m | m in w.members && m.team == team && m.superAgent.Some?
        ensures Has(psa', Instance(project, m.superAgent.value)) {
        HasGrows(psa, psa', Instance(project, m.superAgent.value));
      }
    }
  }

  lemma PartsMakeTeam(w: World, psa: Instances, pti: Instances, k: nat)
    requires k < |w.projectTeams| && TeamPartlyDone(w, psa, k, |w.members|)
    requires Has(pti, Instance(w.projectTeams[k].0, w.projectTeams[k].1))
    ensures TeamDone(w, psa, pti, k)
  {
    hide Has;
  }

  // Super agent instances that row k of project_teams asks for.
  ghost predicate TeamNeeds(w: World, k: nat, x: Instance)
    requires k < |w.projectTeams|
  {
    x.project == w.projectTeams[k].0 && IsMember(w.members, w.projectTeams[k].1, x.template)
  }

  lemma HasWritten(rows: Instances, x: Instance)
    requires exists i :: i in rows && rows[i] == x
    ensures Has(rows, x)
  {
  }

  lemma TeamPartGrows(w: World, psa: Instances, psa': Instances, k: nat, m: nat)
    requires k < |w.projectTeams| && m < |w.members| && Extends(psa, psa')
    requires TeamPartlyDone(w, psa, k, m)
    requires w.members[m].superAgent.Some? && Has(psa', Instance(w.projectTeams[k].0, w.members[m].superAgent.value))
    ensures TeamPartlyDone(w, psa', k, m + 1)
  {
    hide Has, Extends;
    var (project, team) := w.projectTeams[k];
    forall j | 0 <= j < m && w.members[j].team == team && w.members[j].superAgent.Some?
      ensures Has(psa', Instance(project, w.members[j].superAgent.value))
    {
      HasGrows(psa, psa', Instance(project, w.members[j].superAgent.value));
    }
  }

  lemma TeamRowsNeeded(w: World, psa0: Instances, psa1: Instances, psa: Instances, sessions: map<Id, Session>)
    requires OnlyNeeded(w, psa0, psa1, sessions) && Extends(psa1, psa)
    requires forall i :: i in psa && i !in psa1 ==> exists k :: 0 <= k < |w.projectTeams| && TeamNeeds(w, k, psa[i])
    ensures OnlyNeeded(w, psa0, psa, sessions)
  {
    forall i | i in psa && i !in psa0 ensures Needed(w, sessions, psa[i]) {
      if i !in psa1 {
        var k :| 0 <= k < |w.projectTeams| && TeamNeeds(w, k, psa[i]);
        assert w.projectTeams[k].0 == psa[i].project;
      }
    }
  }

  ghost predicate ExactlyOne(rows: Instances, x: Instance) {
    Has(rows, x) && forall i, j :: i in rows && j in rows && rows[i] == x && rows[j] == x ==> i == j
  }

  // What the migration means for a reader: row k of project_teams has exactly one team instance,
  // and if there is any project every active session points to an instance of its own agent.
  lemma CompleteMeans(w: World, psa: Instances, pti: Instances, sessions: map<Id, Session>)
    requires Complete(w, psa, pti, sessions) && Unique(pti)
    requires Referential(w, sessions)
    ensures forall k :: 0 <= k < |w.projectTeams| ==>
              ExactlyOne(pti, Instance(w.projectTeams[k].0, w.projectTeams[k].1))
    ensures w.projects != [] ==>
      forall s :: s in sessions && sessions[s].active ==>
        && sessions[s].instance.Some?
        && sessions[s].instance.value in psa
        && psa[sessions[s].instance.value].template == sessions[s].superAgent
        && psa[sessions[s].instance.value].project in ProjectIds(w)
        && IsRightProject(w, sessions[s].superAgent, psa[sessions[s].instance.value].project)
  {
    forall k | 0 <= k < |w.projectTeams| ensures ExactlyOne(pti, Instance(w.projectTeams[k].0, w.projectTeams[k].1)) {
      assert TeamDone(w, psa, pti, k);
    }
    if w.projects != [] {
      forall s | s in sessions && sessions[s].active
        ensures && sessions[s].instance.Some?
                && sessions[s].instance.value in psa
                && psa[sessions[s].instance.value].template == sessions[s].superAgent
                && psa[sessions[s].instance.value].project in ProjectIds(w)
                && IsRightProject(w, sessions[s].superAgent, psa[sessions[s].instance.value].project)
      {
        hide Chosen, IsRightProject;
        ChosenIsProject(w, sessions, sessions[s].superAgent);
        ChosenIsRight(w, sessions[s].superAgent);
        assert SessionDone(w, psa, sessions[s]);
      }
    }
  }

  lemma NoProjects(w: World, sessions: map<Id, Session>)
    requires Referential(w, sessions)
    ensures w.projects == [] ==> forall sa :: Chosen(w, sa).None?
  {
    hide Chosen;
    forall sa ensures w.projects == [] ==> Chosen(w, sa).None? {
      ChosenIsProject(w, sessions, sa);
    }
  }

  // Every needed row names an existing project and super agent, so no insert violates a foreign key.
  lemma NeededIsReferential(w: World, sessions: map<Id, Session>, x: Instance)
    requires Referential(w, sessions) && Needed(w, sessions, x)
    ensures x.project in ProjectIds(w) && x.template in w.superAgents
  {
    if s :| && s in sessions && sessions[s].active && sessions[s].superAgent == x.template
            && Chosen(w, sessions[s].superAgent) == Some(x.project) {
      ChosenIsProject(w, sessions, sessions[s].superAgent);
    } else {
      var k :| && 0 <= k < |w.projectTeams| && w.projectTeams[k].0 == x.project
               && IsMember(w.members, w.projectTeams[k].1, x.template);
      assert Member(w.projectTeams[k].1, Some(x.template)) in w.members;
    }
  }

  class Migration94 {
    const world: World
    var psa: Instances
    var pti: Instances
    var sessions: map<Id, Session>

    // 5a, one super agent.
    method AttachSessions(sa: Id)
      requires Unique(psa)
      modifies this`psa, this`sessions
      ensures Unique(psa)
      ensures Attached(world, sa, old(psa), psa, old(sessions), sessions)
    {
      hide Unique, Chosen;
      var project := Chosen(world, sa);
      if project.Some? {
        var id, rows := Ensure(psa, Instance(project.value, sa));
        psa := rows;
        sessions := Pointing(sessions, sa, id);
      }
    }

    // 5a: every super agent with an active session.
    method AttachAll()
      requires Unique(psa)
      modifies this`psa, this`sessions
      ensures Unique(psa) && Extends(old(psa), psa) && OnlyNeeded(world, old(psa), psa, old(sessions))
      ensures SameButInstance(old(sessions), sessions)
      ensures SessionsDone(world, psa, sessions)
      ensures SessionsDone(world, old(psa), old(sessions)) ==> psa == old(psa) && sessions == old(sessions)
      ensures (forall sa :: Chosen(world, sa).None?) ==> psa == old(psa) && sessions == old(sessions)
    {
      var agents := set s | s in sessions && sessions[s].active :: sessions[s].superAgent;
      var todo := agents;
      assert forall s :: s in sessions && sessions[s].superAgent !in todo ==> !sessions[s].active;
      assert UntouchedFor(sessions, sessions, todo) && SessionsDoneExcept(world, psa, sessions, todo);
      assert OnlyNeeded(world, psa, psa, sessions);
      hide Attached, SessionDone, OnlyNeeded, UntouchedFor, Unique;
      while todo != {}
        invariant todo <= agents
        invariant Unique(psa) && Extends(old(psa), psa) && OnlyNeeded(world, old(psa), psa, old(sessions))
        invariant SameButInstance(old(sessions), sessions) && UntouchedFor(old(sessions), sessions, todo)
        invariant SessionsDoneExcept(world, psa, sessions, todo)
        invariant SessionsDone(world, old(psa), old(sessions)) ==> psa == old(psa) && sessions == old(sessions)
        invariant (forall sa :: Chosen(world, sa).None?) ==> psa == old(psa) && sessions == old(sessions)
        decreases todo
      {
        var sa :| sa in todo;
        ghost var psa1, sessions1 := psa, sessions;
        AttachSessions(sa);
        AttachedDone(world, sa, psa1, psa, sessions1, sessions, old(sessions), todo);
        AttachedNeeded(world, sa, old(psa), psa1, psa, sessions1, sessions, old(sessions));
        AttachedNothing(world, sa, psa1, psa, sessions1, sessions);
        if SessionsDone(world, old(psa), old(sessions)) {
          AttachedAgain(world, sa, psa1, psa, sessions1, sessions);
        }
        todo := todo - {sa};
      }
    }

    // 5b, one row of project_teams: its team instance, then its super agents.
    method AddTeam(k: nat)
      requires k < |world.projectTeams| && Unique(psa) && Unique(pti)
      modifies this`psa, this`pti
      ensures Unique(psa) && Unique(pti) && Extends(old(psa), psa) && Extends(old(pti), pti)
      ensures TeamDone(world, psa, pti, k)
      ensures TeamDone(world, old(psa), old(pti), k) ==> psa == old(psa) && pti == old(pti)
      ensures forall i :: i in psa && i !in old(psa) ==> TeamNeeds(world, k, psa[i])
      ensures forall i :: i in pti && i !in old(pti) ==>
                pti[i] == Instance(world.projectTeams[k].0, world.projectTeams[k].1)
    {
      hide Unique, Has;
      var (project, team) := world.projectTeams[k];
      var _, teams := Ensure(pti, Instance(project, team));
      HasWritten(teams, Instance(project, team));
      pti := teams;
      for m := 0 to |world.members|
        invariant pti == teams && Unique(psa) && Extends(old(psa), psa)
        invariant TeamPartlyDone(world, psa, k, m)
        invariant TeamDone(world, old(psa), old(pti), k) ==> psa == old(psa)
        invariant forall i :: i in psa && i !in old(psa) ==> TeamNeeds(world, k, psa[i])
      {
        var member := world.members[m];
        if member.team == team && member.superAgent.Some? {
          var x := Instance(project, member.superAgent.value);
          ghost var psa1 := psa;
          var _, rows := Ensure(psa, x);
          psa := rows;
          HasWritten(psa, x);
          TeamPartGrows(world, psa1, psa, k, m);
          assert member in world.members && member == Member(team, Some(member.superAgent.value));
        }
      }
      PartsMakeTeam(world, psa, pti, k);
    }

    // 5b: every row of project_teams.
    method AddTeams()
      requires Unique(psa) && Unique(pti)
      modifies this`psa, this`pti
      ensures Unique(psa) && Unique(pti) && Extends(old(psa), psa) && Extends(old(pti), pti)
      ensures TeamsDone(world, psa, pti, |world.projectTeams|)
      ensures TeamsDone(world, old(psa), old(pti), |world.projectTeams|) ==> psa == old(psa) && pti == old(pti)
      ensures forall i :: i in psa && i !in old(psa) ==>
                exists k :: 0 <= k < |world.projectTeams| && TeamNeeds(world, k, psa[i])
      ensures forall i :: i in pti && i !in old(pti) ==>
                exists k :: && 0 <= k < |world.projectTeams|
                            && pti[i] == Instance(world.projectTeams[k].0, world.projectTeams[k].1)
    {
      hide TeamDone, TeamNeeds, Unique;
      for k := 0 to |world.projectTeams|
        invariant Unique(psa) && Unique(pti) && Extends(old(psa), psa) && Extends(old(pti), pti)
        invariant TeamsDone(world, psa, pti, k)
        invariant TeamsDone(world, old(psa), old(pti), |world.projectTeams|) ==> psa == old(psa) && pti == old(pti)
        invariant forall i :: i in psa && i !in old(psa) ==> exists j :: 0 <= j < k && TeamNeeds(world, j, psa[i])
        invariant forall i :: i in pti && i !in old(pti) ==>
          exists j :: 0 <= j < k && pti[i] == Instance(world.projectTeams[j].0, world.projectTeams[j].1)
      {
        ghost var psa1, pti1 := psa, pti;
        AddTeam(k);
        TeamsDoneGrow(world, psa1, psa, pti1, pti, k);
      }
    }

    // The whole data migration.
    method Migrate()
      requires Unique(psa) && Unique(pti) && Referential(world, sessions)
      modifies this
      ensures Unique(psa) && Unique(pti)
      ensures Extends(old(psa), psa) && Extends(old(pti), pti)
      ensures SameButInstance(old(sessions), sessions)
      ensures if world.projects == [] then sessions == old(sessions)
              else forall s :: s in sessions && sessions[s].active ==>
                     && sessions[s].instance.Some? && sessions[s].instance.value in psa
                     && psa[sessions[s].instance.value].template == sessions[s].superAgent
                     && IsRightProject(world, sessions[s].superAgent, psa[sessions[s].instance.value].project)
      ensures Complete(world, psa, pti, sessions)
      ensures Complete(world, old(psa), old(pti), old(sessions)) ==>
                psa == old(psa) && pti == old(pti) && sessions == old(sessions)
      ensures OnlyNeeded(world, old(psa), psa, old(sessions))
      ensures forall i :: i in pti && i !in old(pti) ==>
                exists k :: && 0 <= k < |world.projectTeams|
                            && pti[i] == Instance(world.projectTeams[k].0, world.projectTeams[k].1)
    {
      hide Chosen, IsRightProject, ProjectIds, SessionDone, TeamDone, Needed, TeamNeeds, Unique, OnlyNeeded, IsMember;
      NoProjects(world, sessions);
      AttachAll();
      ghost var psa1 := psa;
      AddTeams();
      SessionsDoneGrow(world, psa1, psa, sessions);
      TeamRowsNeeded(world, old(psa), psa1, psa, old(sessions));
      CompleteMeans(world, psa, pti, sessions);
    }
  }
}
