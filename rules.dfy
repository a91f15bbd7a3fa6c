/** The business rules of ProjectServiceImpl stated over one value of the whole
    store: what each service operation returns and what the tables and the
    outbox hold afterwards. The class in project_service.dfy is proved to
    behave exactly as these functions say. */
module Rules {
  import opened Entities
  import opened Notifications
  import Store

  /** Every table the service reads or writes, plus the outbox of sent mail.
      New project ids are taken from nextProjectId. */
  datatype Db = Db(
    projects: map<Id, Project>,
    nextProjectId: Id,
    userProjects: seq<UserProject>,
    projectSkills: seq<ProjectSkill>,
    organizations: map<Id, Organization>,
    users: seq<User>,
    outbox: seq<Email>)

  /** The store invariant: generated ids lie below the counter, no
      (user, project, status) row occurs twice, and user ids are keys. */
  ghost predicate Valid(db: Db) {
    && (forall id :: id in db.projects ==> id < db.nextProjectId)
    && Store.Distinct(db.userProjects)
    && Store.UniqueUserIds(db.users)
  }

  predicate IsApplicationStatus(status: Option<string>) {
    status.Some? && status.value in ApplicationStatuses
  }

  // ---- finders ----

  /** findById: the project with that id, or null. */
  function FindById(db: Db, id: Id): (r: Option<Project>)
    ensures r.Some? <==> id in db.projects
    ensures r.Some? ==> r.value == db.projects[id]
  {
    if id in db.projects then Some(db.projects[id]) else None
  }

  /** findByName: a project with that name (the one with the lowest id), or null. */
  function FindByName(db: Db, name: string): (r: Option<(Id, Project)>)
    requires Valid(db)
    ensures r.Some? ==> r.value.0 in db.projects && r.value.1 == db.projects[r.value.0] && r.value.1.name == Some(name)
    ensures r.Some? ==> forall k :: k in db.projects && k < r.value.0 ==> db.projects[k].name != Some(name)
    ensures r.None? <==> forall k :: k in db.projects ==> db.projects[k].name != Some(name)
  {
    match Store.FirstWhere(db.projects, (p: Project) => p.name == Some(name), 0, db.nextProjectId)
    case Some(k) => Some((k, db.projects[k]))
    case None => None
  }

  /** findByUser: the projects on which the user holds a row in that status. */
  function FindByUser(db: Db, userId: Id, status: string): (r: map<Id, Project>)
    ensures forall id :: id in r <==> id in db.projects && UserProject(userId, id, status) in db.userProjects
    ensures forall id :: id in r ==> r[id] == db.projects[id]
  {
    Store.ProjectsByUser(db.projects, db.userProjects, userId, status)
  }

  /** findProjects: every project, largest id first. */
  function FindProjects(db: Db): (r: seq<(Id, Project)>)
    requires Valid(db)
    ensures forall i, j :: 0 <= i < j < |r| ==> r[i].0 > r[j].0
    ensures forall i :: 0 <= i < |r| ==> r[i].0 in db.projects && r[i].1 == db.projects[r[i].0]
    ensures forall id :: id in db.projects ==> (id, db.projects[id]) in r
  {
    Store.FindAllByOrderByIdDesc(db.projects, db.nextProjectId)
  }

  // ---- saveUserProject ----

  /** Everything saveUserProject checks before it writes: the user and the
      project resolve, the status is one of A, B, C, D, and no identical row exists. */
  predicate Accepts(db: Db, userId: Id, projectId: Id, status: Option<string>) {
    && Store.FindUserById(db.users, userId).Some?
    && projectId in db.projects
    && IsApplicationStatus(status)
    && UserProject(userId, projectId, status.value) !in db.userProjects
  }

  /** saveUserProject(userId, projectId, status). skills and projectLink are
      what the skill service and the URL service return for this applicant and
      project; they only end up inside the application emails. */
  function SaveUserProject(db: Db, userId: Id, projectId: Id, status: Option<string>,
                           skills: seq<string>, projectLink: string): (out: (Result<Project>, Db))
    requires Valid(db)
    ensures Valid(out.1)
    // rejected before any write
    ensures !Accepts(db, userId, projectId, status) ==> out.0.Failure? && out.1 == db
    ensures Store.FindUserById(db.users, userId).None? ==> out.0 == Failure(NullPointer("Invalid User Id"))
    ensures Store.FindUserById(db.users, userId).Some? && projectId !in db.projects ==>
              out.0 == Failure(NullPointer("Invalid Project Id"))
    ensures Store.FindUserById(db.users, userId).Some? && projectId in db.projects && !IsApplicationStatus(status) ==>
              out.0 == Failure(BadRequest("Invalid Project Status"))
    ensures Store.FindUserById(db.users, userId).Some? && projectId in db.projects && IsApplicationStatus(status)
            && UserProject(userId, projectId, status.value) in db.userProjects ==>
              out.0 == Failure(UserProjectFailure("Record already exist"))
    // accepted: exactly one row appended, and only the outbox may change besides
    ensures Accepts(db, userId, projectId, status) ==>
              && out.1.userProjects == db.userProjects + [UserProject(userId, projectId, status.value)]
              && out.1.(userProjects := db.userProjects, outbox := db.outbox) == db
              && db.outbox <= out.1.outbox
    // mail goes out for status A only
    ensures Accepts(db, userId, projectId, status) && status.value != "A" ==>
              out == (Success(db.projects[projectId]), out.1) && out.1.outbox == db.outbox
    ensures Accepts(db, userId, projectId, status) && status.value == "A" ==>
              var project := db.projects[projectId];
              && (project.orgId.None? ==> out.0 == Failure(NullPointer("")) && out.1.outbox == db.outbox)
              && (project.orgId.Some? ==>
                    && out.0 == Success(project)
                    && out.1.outbox == db.outbox + ApplicationEmails(db.users, db.organizations,
                         Store.FindUserById(db.users, userId).value, projectId, project.orgId.value, skills, projectLink))
  {
    var user := Store.FindUserById(db.users, userId);
    if user.None? then (Failure(NullPointer("Invalid User Id")), db)
    else if projectId !in db.projects then (Failure(NullPointer("Invalid Project Id")), db)
    else if !IsApplicationStatus(status) then (Failure(BadRequest("Invalid Project Status")), db)
    else if UserProject(userId, projectId, status.value) in db.userProjects then
      (Failure(UserProjectFailure("Record already exist")), db)
    else
      var project := db.projects[projectId];
      Store.DistinctAppend(db.userProjects, UserProject(userId, projectId, status.value));
      var saved := db.(userProjects := db.userProjects + [UserProject(userId, projectId, status.value)]);
      if status.value != "A" then (Success(project), saved)
      else if project.orgId.None? then (Failure(NullPointer("")), saved)
      else
        var emails := ApplicationEmails(db.users, db.organizations, user.value, projectId, project.orgId.value, skills, projectLink);
        (Success(project), saved.(outbox := db.outbox + emails))
  }

  // ---- createProject ----

  predicate SameNameAndOrganization(p: Project, q: Project) {
    p.name == q.name && p.orgId == q.orgId
  }

  predicate OrganizationResolves(db: Db, p: Project) {
    p.orgId.Some? && p.orgId.value in db.organizations
  }

  /** The entity createProject saves for the dto p: the mapper looks the
      organisation up by id, so its reference is null when the id does not resolve. */
  function SavedProject(organizations: map<Id, Organization>, p: Project): (e: Project)
    ensures e.name == p.name && e.status == p.status && e.remoteFlag == p.remoteFlag
    ensures e.orgId.Some? <==> p.orgId.Some? && p.orgId.value in organizations
    ensures e.orgId.Some? ==> e == p
  {
    if p.orgId.Some? && p.orgId.value in organizations then p else p.(orgId := None)
  }

  /** createProject(dto) with p the dto's fields (its name and organisation id
      are what the duplicate lookup uses) and now the clock reading used for
      the organisation's projectUpdatedTime. The row saved is SavedProject. */
  function CreateProject(db: Db, p: Project, now: int): (out: (Result<(Id, Project)>, Db))
    requires Valid(db)
    ensures Valid(out.1)
    // idempotent on (name, organisation): the stored project comes back and nothing changes
    ensures (exists k :: k in db.projects && SameNameAndOrganization(db.projects[k], p)) ==>
              && out.1 == db
              && out.0.Success?
              && out.0.value.0 in db.projects
              && out.0.value.1 == db.projects[out.0.value.0]
              && SameNameAndOrganization(out.0.value.1, p)
    // otherwise exactly one project is added under a fresh id
    ensures (forall k :: k in db.projects ==> !SameNameAndOrganization(db.projects[k], p)) ==>
              var id := db.nextProjectId;
              && id !in db.projects
              && out.1.projects == db.projects[id := SavedProject(db.organizations, p)]
              && |out.1.projects| == |db.projects| + 1
              && out.1.userProjects == db.userProjects
              && out.1.projectSkills == db.projectSkills
              && out.1.users == db.users
              && (OrganizationResolves(db, p) ==>
                    && out.0 == Success((id, p))
                    && out.1.organizations == db.organizations[p.orgId.value :=
                                                db.organizations[p.orgId.value].(projectUpdatedTime := Some(now))]
                    && out.1.outbox == db.outbox + NotificationEmails(Store.FindUsersToNotify(db.users), id))
              && (!OrganizationResolves(db, p) ==>
                    && out.0 == Failure(NullPointer(""))
                    && out.1.projects[id].orgId.None?
                    && out.1.organizations == db.organizations
                    && out.1.outbox == db.outbox)
  {
    match Store.FindByNameAndOrganizationId(db.projects, db.nextProjectId, p.name, p.orgId)
    case Some(k) => (Success((k, db.projects[k])), db)
    case None =>
      var id := db.nextProjectId;
      var saved := db.(projects := db.projects[id := SavedProject(db.organizations, p)], nextProjectId := id + 1);
      if !OrganizationResolves(db, p) then (Failure(NullPointer("")), saved)
      else
        var orgId := p.orgId.value;
        var org := db.organizations[orgId].(projectUpdatedTime := Some(now));
        (Success((id, p)),
         saved.(organizations := db.organizations[orgId := org],
                outbox := db.outbox + NotificationEmails(Store.FindUsersToNotify(db.users), id)))
  }

  // ---- updateProject ----

  /** updateProject(dto) with id the dto's id and p the entity mapped from it. */
  function UpdateProject(db: Db, id: Id, p: Project): (out: (Option<Project>, Db))
    requires Valid(db)
    ensures Valid(out.1)
    ensures id !in db.projects ==> out == (None, db)
    ensures id in db.projects ==> out.0 == Some(p) && out.1 == db.(projects := db.projects[id := p])
    ensures out.1.projects.Keys == db.projects.Keys
  {
    if id in db.projects then (Some(p), db.(projects := db.projects[id := p])) else (None, db)
  }

  // ---- deleteProject ----

  /** deleteProject(id): the project's status-B rows and skill rows go first,
      then the project; a missing id changes nothing. */
  function DeleteProject(db: Db, id: Id): (r: Db)
    requires Valid(db)
    ensures Valid(r)
    ensures id !in db.projects ==> r == db
    ensures id in db.projects ==>
              && r.projects == db.projects - {id}
              && (forall row :: row in r.userProjects <==>
                    row in db.userProjects && !(row.projectId == id && row.status == "B"))
              && (forall row :: row in r.projectSkills <==> row in db.projectSkills && row.projectId != id)
              && r.(projects := db.projects, userProjects := db.userProjects, projectSkills := db.projectSkills) == db
  {
    if id in db.projects then
      db.(userProjects := Store.DeleteByProjectStatus(db.userProjects, id, "B"),
          projectSkills := Store.DeleteByProjectId(db.projectSkills, id),
          projects := db.projects - {id})
    else db
  }

  // ---- findByOrganization ----

  /** The draft findByOrganization creates: status N, remote flag Y, and the
      organisation if it resolves (organizationDAO.findOne returns null otherwise). */
  function Draft(db: Db, orgId: Id): Project {
    Project(None, if orgId in db.organizations then Some(orgId) else None, Some("N"), Some("Y"))
  }

  /** findByOrganization(orgId, status): the organisation's projects in that
      status; asking for status N when there is none creates one draft first. */
  function FindByOrganization(db: Db, orgId: Id, status: Option<string>): (out: (map<Id, Project>, Db))
    requires Valid(db)
    ensures Valid(out.1)
    ensures out.0 == Store.ProjectsByOrganization(out.1.projects, orgId, status)
    // no write unless a draft is asked for and missing
    ensures status != Some("N") || Store.ProjectsByOrganization(db.projects, orgId, status) != map[] ==> out.1 == db
    ensures status == Some("N") && Store.ProjectsByOrganization(db.projects, orgId, status) == map[] ==>
              && db.nextProjectId !in db.projects
              && out.1 == db.(projects := db.projects[db.nextProjectId := Draft(db, orgId)],
                              nextProjectId := db.nextProjectId + 1)
              && |out.1.projects| == |db.projects| + 1
              && (orgId in db.organizations ==> out.0 == map[db.nextProjectId := Draft(db, orgId)])
              && (orgId !in db.organizations ==> out.0 == map[])
    // an existing organisation always has a draft afterwards
    ensures status == Some("N") && orgId in db.organizations ==> |out.0| > 0
  {
    var found := Store.ProjectsByOrganization(db.projects, orgId, status);
    if status == Some("N") && |found| == 0 then
      var id := db.nextProjectId;
      var saved := db.(projects := db.projects[id := Draft(db, orgId)], nextProjectId := id + 1);
      var again := Store.ProjectsByOrganization(saved.projects, orgId, status);
      assert found == map[];
      assert orgId in db.organizations ==> again == map[id := Draft(db, orgId)];
      assert orgId !in db.organizations ==> again == map[];
      (again, saved)
    else
      assert |found| != 0 ==> found != map[];
      assert found != map[] ==> |found| != 0;
      (found, db)
  }

  // ---- properties relating several calls ----

  /** Applying twice with the same (user, project, status) fails the second
      time with "Record already exist" and leaves the first call's state. */
  lemma SaveUserProjectRejectsRepeat(db: Db, userId: Id, projectId: Id, status: Option<string>,
                                     skills: seq<string>, projectLink: string)
    requires Valid(db) && Accepts(db, userId, projectId, status)
    ensures var once := SaveUserProject(db, userId, projectId, status, skills, projectLink).1;
            SaveUserProject(once, userId, projectId, status, skills, projectLink)
              == (Failure(UserProjectFailure("Record already exist")), once)
  {
    var once := SaveUserProject(db, userId, projectId, status, skills, projectLink).1;
    assert UserProject(userId, projectId, status.value) in once.userProjects;
  }

  /** A different status for the same (user, project) pair is a new, accepted row. */
  lemma SaveUserProjectOtherStatus(db: Db, userId: Id, projectId: Id, s1: Option<string>, s2: Option<string>,
                                   skills: seq<string>, projectLink: string)
    requires Valid(db) && Accepts(db, userId, projectId, s1) && Accepts(db, userId, projectId, s2) && s1 != s2
    ensures Accepts(SaveUserProject(db, userId, projectId, s1, skills, projectLink).1, userId, projectId, s2)
  {
    var once := SaveUserProject(db, userId, projectId, s1, skills, projectLink).1;
    assert once.userProjects == db.userProjects + [UserProject(userId, projectId, s1.value)];
  }

  /** After an accepted application, findByUser in that status lists the project. */
  lemma SaveUserProjectThenFindByUser(db: Db, userId: Id, projectId: Id, status: Option<string>,
                                      skills: seq<string>, projectLink: string)
    requires Valid(db) && Accepts(db, userId, projectId, status)
    ensures var once := SaveUserProject(db, userId, projectId, status, skills, projectLink).1;
            projectId in FindByUser(once, userId, status.value)
  {
    var once := SaveUserProject(db, userId, projectId, status, skills, projectLink).1;
    assert UserProject(userId, projectId, status.value) in once.userProjects;
  }

  /** Creating the same (name, organisation) twice stores one project, and the
      second call returns it, changes nothing and sends nothing. This holds
      when the organisation resolves or none is given; see
      CreateProjectUnresolvedRepeats for an organisation id that does not resolve. */
  lemma CreateProjectTwice(db: Db, p: Project, now1: int, now2: int)
    requires Valid(db)
    requires OrganizationResolves(db, p) || p.orgId.None?
    ensures var first := CreateProject(db, p, now1);
            var second := CreateProject(first.1, p, now2);
            && second.1 == first.1
            && second.0.Success?
            && (first.0.Success? ==> second.0 == first.0)
  {
    var first := CreateProject(db, p, now1);
    if exists k :: k in db.projects && SameNameAndOrganization(db.projects[k], p) {
      assert first.1 == db;
    } else {
      var id := db.nextProjectId;
      assert id in first.1.projects && SameNameAndOrganization(first.1.projects[id], p);
      if first.0.Success? {
        var second := CreateProject(first.1, p, now2);
        FirstMatchIsUnique(first.1, p, id);
      }
    }
  }

  /** With an organisation id that does not resolve, the saved row has no
      organisation, so the duplicate lookup never finds it: every call saves
      one more project and fails. */
  lemma CreateProjectUnresolvedRepeats(db: Db, p: Project, now1: int, now2: int)
    requires Valid(db) && p.orgId.Some? && p.orgId.value !in db.organizations
    requires forall k :: k in db.projects ==> !SameNameAndOrganization(db.projects[k], p)
    ensures var first := CreateProject(db, p, now1);
            var second := CreateProject(first.1, p, now2);
            && first.0 == Failure(NullPointer(""))
            && second.0 == Failure(NullPointer(""))
            && |second.1.projects| == |db.projects| + 2
            && second.1.outbox == db.outbox
  {
    var first := CreateProject(db, p, now1);
    forall k | k in first.1.projects
      ensures !SameNameAndOrganization(first.1.projects[k], p)
    {
      if k == db.nextProjectId {
        assert first.1.projects[k].orgId.None?;
      }
    }
    assert first.1.organizations == db.organizations;
  }

  /** When exactly one stored project has p's name and organisation, the lookup createProject makes finds it. */
  lemma FirstMatchIsUnique(db: Db, p: Project, k: Id)
    requires Valid(db)
    requires k in db.projects && SameNameAndOrganization(db.projects[k], p)
    requires forall j :: j in db.projects && j != k ==> !SameNameAndOrganization(db.projects[j], p)
    ensures Store.FindByNameAndOrganizationId(db.projects, db.nextProjectId, p.name, p.orgId) == Some(k)
  {
    var found := Store.FindByNameAndOrganizationId(db.projects, db.nextProjectId, p.name, p.orgId);
    assert k < db.nextProjectId;
    assert found.Some?;
  }

  /** The notice fan-out sends exactly one email per subscribed user, each to
      that user and naming the new project. */
  lemma CreateProjectNotifiesEverySubscriber(db: Db, p: Project, now: int)
    requires Valid(db) && OrganizationResolves(db, p)
    requires forall k :: k in db.projects ==> !SameNameAndOrganization(db.projects[k], p)
    ensures var out := CreateProject(db, p, now);
            var sent := out.1.outbox[|db.outbox|..];
            var subscribers := Store.FindUsersToNotify(db.users);
            && |sent| == |subscribers|
            && forall i :: 0 <= i < |sent| ==>
                 sent[i].to == subscribers[i].email && subscribers[i].notify &&
                 sent[i].message.Plain? && NotificationProjectId(sent[i].message.body) == Some(db.nextProjectId)
  {
    var out := CreateProject(db, p, now);
    var subscribers := Store.FindUsersToNotify(db.users);
    var sent := out.1.outbox[|db.outbox|..];
    assert sent == NotificationEmails(subscribers, db.nextProjectId);
    NotificationBodyRoundTrip(db.nextProjectId);
    forall i | 0 <= i < |sent|
      ensures subscribers[i].notify
    {
      assert subscribers[i] in subscribers;
    }
  }

  /** A second draft request finds the draft the first one made and writes nothing. */
  lemma FindByOrganizationCreatesOneDraft(db: Db, orgId: Id)
    requires Valid(db) && orgId in db.organizations
    ensures var first := FindByOrganization(db, orgId, Some("N"));
            FindByOrganization(first.1, orgId, Some("N")) == first
  {
    var first := FindByOrganization(db, orgId, Some("N"));
    assert first.0 != map[];
  }

  /** After deleteProject the project no longer resolves, and no other project's rows change. */
  lemma DeleteProjectThenFindById(db: Db, id: Id, other: Id)
    requires Valid(db) && other != id
    ensures var r := DeleteProject(db, id);
            && FindById(r, id).None?
            && FindById(r, other) == FindById(db, other)
            && (forall row: UserProject :: row.projectId == other ==> (row in r.userProjects <==> row in db.userProjects))
            && (forall row: ProjectSkill :: row.projectId == other ==> (row in r.projectSkills <==> row in db.projectSkills))
  {
  }

  /** deleteProject keeps the project's rows in statuses other than B, which
      then name a project that no longer resolves. */
  lemma DeleteProjectKeepsOtherStatusRows(db: Db, id: Id, row: UserProject)
    requires Valid(db) && id in db.projects
    requires row in db.userProjects && row.projectId == id && row.status != "B"
    ensures var r := DeleteProject(db, id);
            row in r.userProjects && FindById(r, row.projectId).None?
  {
  }

  /** updateProject stores the new value where findById finds it; a missing id is a no-op. */
  lemma UpdateProjectThenFindById(db: Db, id: Id, p: Project)
    requires Valid(db)
    ensures var out := UpdateProject(db, id, p);
            FindById(out.1, id) == (if id in db.projects then Some(p) else None)
  {
  }
}
