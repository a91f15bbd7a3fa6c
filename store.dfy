/** The DAO queries and deletes the service relies on, as pure functions over
    the tables they read. Tables that the service walks in order (users,
    user-project rows, project-skill rows) are sequences in row order;
    projects are a map from their generated id. */
module Store {
  import opened Entities

  ghost predicate Distinct<T>(s: seq<T>) {
    forall i, j :: 0 <= i < j < |s| ==> s[i] != s[j]
  }

  lemma DistinctAppend<T>(s: seq<T>, x: T)
    requires Distinct(s) && x !in s
    ensures Distinct(s + [x])
  {
    forall i, j | 0 <= i < j < |s| + 1
      ensures (s + [x])[i] != (s + [x])[j]
    {
      if j == |s| {
        assert (s + [x])[i] == s[i] && s[i] in s;
      } else {
        assert (s + [x])[i] == s[i] && (s + [x])[j] == s[j];
      }
    }
  }

  /** The rows of s that satisfy keep, in their order (FilterAppend). */
  function Filter<T>(s: seq<T>, keep: T -> bool): (r: seq<T>)
    ensures |r| <= |s|
    ensures forall i :: 0 <= i < |r| ==> r[i] in s && keep(r[i])
    ensures forall i :: 0 <= i < |s| && keep(s[i]) ==> s[i] in r
    ensures Distinct(s) ==> Distinct(r)
    decreases |s|
  {
    if s == [] then []
    else
      var rest := Filter(s[1..], keep);
      assert Distinct(s) ==> s[0] !in s[1..] && Distinct(s[1..]);
      if keep(s[0]) then [s[0]] + rest else rest
  }

  /** Each kept row occurs in the result as often as in s; a dropped row not at all. */
  lemma {:induction false} FilterCount<T>(s: seq<T>, keep: T -> bool, x: T)
    ensures multiset(Filter(s, keep))[x] == if keep(x) then multiset(s)[x] else 0
    decreases |s|
  {
    if s != [] {
      assert s == [s[0]] + s[1..];
      FilterCount(s[1..], keep, x);
    }
  }

  /** Filtering keeps row order: filtering a concatenation concatenates the filtered parts. */
  lemma {:induction false} FilterAppend<T>(s: seq<T>, t: seq<T>, keep: T -> bool)
    ensures Filter(s + t, keep) == Filter(s, keep) + Filter(t, keep)
    decreases |s|
  {
    if s == [] {
      assert s + t == t;
    } else {
      assert (s + t)[1..] == s[1..] + t;
      FilterAppend(s[1..], t, keep);
    }
  }

  /** The first id in [lo, hi) whose project satisfies keep. */
  function FirstWhere(projects: map<Id, Project>, keep: Project -> bool, lo: nat, hi: nat): (r: Option<Id>)
    ensures r.Some? ==> lo <= r.value < hi && r.value in projects && keep(projects[r.value])
    ensures r.Some? ==> forall k :: lo <= k < r.value && k in projects ==> !keep(projects[k])
    ensures r.None? ==> forall k :: lo <= k < hi && k in projects ==> !keep(projects[k])
    decreases hi - lo
  {
    if lo >= hi then None
    else if lo in projects && keep(projects[lo]) then Some(lo)
    else FirstWhere(projects, keep, lo + 1, hi)
  }

  // ---- UserDAO ----

  /** The user table's key: no two rows share an id. */
  ghost predicate UniqueUserIds(users: seq<User>) {
    forall i, j :: 0 <= i < j < |users| ==> users[i].id != users[j].id
  }

  /** userDAO.findById: the user row with that id, if any. */
  function FindUserById(users: seq<User>, id: Id): (r: Option<User>)
    ensures r.Some? ==> r.value in users && r.value.id == id
    ensures r.None? ==> forall u :: u in users ==> u.id != id
    decreases |users|
  {
    if users == [] then None
    else if users[0].id == id then Some(users[0])
    else FindUserById(users[1..], id)
  }

  /** With unique ids, findById returns the one row carrying the id. */
  lemma {:induction false} FindUserByIdFindsTheUser(users: seq<User>, u: User)
    requires UniqueUserIds(users) && u in users
    ensures FindUserById(users, u.id) == Some(u)
    decreases |users|
  {
    if users[0] != u {
      var k :| 0 <= k < |users| && users[k] == u;
      assert users[0].id != u.id;
      assert users[1..][k - 1] == u;
      FindUserByIdFindsTheUser(users[1..], u);
    }
  }

  /** userDAO.findByOrgId: the users of one organisation, in row order. */
  function FindUsersByOrgId(users: seq<User>, orgId: Id): (r: seq<User>)
    ensures forall u :: u in r <==> u in users && u.orgId == Some(orgId)
  {
    Filter(users, (u: User) => u.orgId == Some(orgId))
  }

  /** userDAO.findByNotify: the users subscribed to new-project notices, in row order. */
  function FindUsersToNotify(users: seq<User>): (r: seq<User>)
    ensures forall u :: u in r <==> u in users && u.notify
  {
    Filter(users, (u: User) => u.notify)
  }

  // ---- UserProjectDAO ----

  /** userProjectDAO.findByUser_IdAndProject_IdAndStatus. */
  function FindUserProjects(rows: seq<UserProject>, userId: Id, projectId: Id, status: string): (r: seq<UserProject>)
    ensures forall x :: x in r <==> x in rows && x.userId == userId && x.projectId == projectId && x.status == status
  {
    Filter(rows, (x: UserProject) => x.userId == userId && x.projectId == projectId && x.status == status)
  }

  /** userProjectDAO.deleteByProjectStatus: drops the project's rows in that status only. */
  function DeleteByProjectStatus(rows: seq<UserProject>, projectId: Id, status: string): (r: seq<UserProject>)
    ensures forall x :: x in r <==> x in rows && !(x.projectId == projectId && x.status == status)
    ensures Distinct(rows) ==> Distinct(r)
  {
    Filter(rows, (x: UserProject) => !(x.projectId == projectId && x.status == status))
  }

  // ---- ProjectSkillDAO ----

  /** projectSkillDAO.deleteByProjectId: drops every skill row of the project. */
  function DeleteByProjectId(rows: seq<ProjectSkill>, projectId: Id): (r: seq<ProjectSkill>)
    ensures forall x :: x in r <==> x in rows && x.projectId != projectId
  {
    Filter(rows, (x: ProjectSkill) => x.projectId != projectId)
  }

  // ---- ProjectDAO ----

  /** projectDAO.findByNameAndOrganizationId, over the ids below bound. */
  function FindByNameAndOrganizationId(projects: map<Id, Project>, bound: nat, name: Option<string>, orgId: Option<Id>): (r: Option<Id>)
    ensures r.Some? ==> r.value in projects && projects[r.value].name == name && projects[r.value].orgId == orgId
    ensures r.None? ==> forall k :: k in projects && k < bound ==> !(projects[k].name == name && projects[k].orgId == orgId)
  {
    FirstWhere(projects, (p: Project) => p.name == name && p.orgId == orgId, 0, bound)
  }

  /** projectDAO.getProjectsByOrganization: the organisation's projects,
      restricted to one status unless the status is null. */
  function ProjectsByOrganization(projects: map<Id, Project>, orgId: Id, status: Option<string>): (r: map<Id, Project>)
    ensures forall id :: id in r <==> id in projects && projects[id].orgId == Some(orgId) && (status.None? || projects[id].status == status)
    ensures forall id :: id in r ==> r[id] == projects[id]
  {
    map id | id in projects && projects[id].orgId == Some(orgId) && (status.None? || projects[id].status == status) :: projects[id]
  }

  /** projectDAO.findByUserIdAndUserProjectStatus: the projects the user holds a row on in that status. */
  function ProjectsByUser(projects: map<Id, Project>, rows: seq<UserProject>, userId: Id, status: string): (r: map<Id, Project>)
    ensures forall id :: id in r <==> id in projects && UserProject(userId, id, status) in rows
    ensures forall id :: id in r ==> r[id] == projects[id]
  {
    map id | id in projects && UserProject(userId, id, status) in rows :: projects[id]
  }

  /** The ids below bound that are in use, largest first. */
  function IdsDescending(ids: set<Id>, bound: nat): (r: seq<Id>)
    ensures forall i :: 0 <= i < |r| ==> r[i] < bound && r[i] in ids
    ensures forall i, j :: 0 <= i < j < |r| ==> r[i] > r[j]
    ensures forall id :: id in ids && id < bound ==> id in r
    decreases bound
  {
    if bound == 0 then []
    else
      var rest := IdsDescending(ids, bound - 1);
      if bound - 1 !in ids then rest
      else
        var r := [bound - 1] + rest;
        assert forall i :: 1 <= i < |r| ==> r[i] == rest[i - 1];
        r
  }

  /** projectDAO.findAllByOrderByIdDesc, over the ids below bound: largest id first. */
  function FindAllByOrderByIdDesc(projects: map<Id, Project>, bound: nat): (r: seq<(Id, Project)>)
    ensures forall i, j :: 0 <= i < j < |r| ==> r[i].0 > r[j].0
    ensures forall i :: 0 <= i < |r| ==> r[i].0 in projects && r[i].1 == projects[r[i].0]
    ensures forall id :: id in projects && id < bound ==> (id, projects[id]) in r
  {
    var ids := IdsDescending(projects.Keys, bound);
    var r := seq(|ids|, i requires 0 <= i < |ids| => (ids[i], projects[ids[i]]));
    assert forall id :: id in projects && id < bound ==> id in ids;
    assert forall i :: 0 <= i < |ids| ==> r[i] == (ids[i], projects[ids[i]]);
    r
  }
}
