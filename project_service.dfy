/** ProjectServiceImpl with its DAOs as fields: each table is a field the
    service methods update in place, and sending mail appends to the outbox.
    Every method is proved to leave the store exactly as the matching
    function of module Rules says. */
module ProjectService {
  import opened Entities
  import opened Notifications
  import Store
  import Rules

  class ProjectServiceImpl {
    var projects: map<Id, Project>        // projectDAO
    var nextProjectId: Id                 // the id projectDAO.save hands out next
    var userProjects: seq<UserProject>    // userProjectDAO
    var projectSkills: seq<ProjectSkill>  // projectSkillDAO
    var organizations: map<Id, Organization> // organizationDAO
    var users: seq<User>                  // userDAO
    var outbox: seq<Email>                // what asyncEmailService was asked to send

    /** The whole store as one value. */
    function State(): Rules.Db
      reads this
    {
      Rules.Db(projects, nextProjectId, userProjects, projectSkills, organizations, users, outbox)
    }

    ghost predicate Valid()
      reads this
    {
      Rules.Valid(State())
    }

    constructor (db: Rules.Db)
      requires Rules.Valid(db)
      ensures Valid() && State() == db
    {
      projects := db.projects;
      nextProjectId := db.nextProjectId;
      userProjects := db.userProjects;
      projectSkills := db.projectSkills;
      organizations := db.organizations;
      users := db.users;
      outbox := db.outbox;
    }

    /** isRecordExist: walks the rows the DAO finds for (user, project, status)
        and fails on the first whose status equals the given one. */
    method IsRecordExist(userId: Id, projectId: Id, status: string) returns (failure: Option<Error>)
      ensures failure.Some? <==> UserProject(userId, projectId, status) in userProjects
      ensures failure.Some? ==> failure.value == UserProjectFailure("Record already exist")
    {
      var found := Store.FindUserProjects(userProjects, userId, projectId, status);
      for i := 0 to |found|
        invariant forall j :: 0 <= j < i ==> found[j].status != status
      {
        if found[i].status == status {
          assert found[i] in found;
          return Some(UserProjectFailure("Record already exist"));
        }
      }
      assert UserProject(userId, projectId, status) !in found;
      return None;
    }

    /** apply: the application emails for status A. Reading the project's
        organisation throws when the project has none. */
    method Apply(user: User, projectId: Id, project: Project, skills: seq<string>, projectLink: string)
      returns (failure: Option<Error>)
      requires Valid()
      modifies this`outbox
      ensures Valid()
      ensures project.orgId.None? ==> failure == Some(NullPointer("")) && outbox == old(outbox)
      ensures project.orgId.Some? ==>
                failure.None? &&
                outbox == old(outbox) + ApplicationEmails(users, organizations, user, projectId, project.orgId.value, skills, projectLink)
    {
      if project.orgId.None? {
        return Some(NullPointer(""));
      }
      var orgId := project.orgId.value;
      var orgUsers := Store.FindUsersByOrgId(users, orgId);
      if orgUsers != [] {
        var orgUser := orgUsers[0];
        if !IsEmpty(user.email) {
          outbox := outbox + [VolunteerApplicationEmail(user, skills, projectId)];
        }
        if orgId in organizations {
          outbox := outbox + [ApplicantApplicationEmail(user, orgId, orgUser, projectLink, projectId)];
        }
      }
      return None;
    }

    method SaveUserProject(userId: Id, projectId: Id, status: Option<string>, skills: seq<string>, projectLink: string)
      returns (r: Result<Project>)
      requires Valid()
      modifies this
      ensures (r, State()) == Rules.SaveUserProject(old(State()), userId, projectId, status, skills, projectLink)
      ensures Valid()
    {
      var user := Store.FindUserById(users, userId);
      if user.None? {
        return Failure(NullPointer("Invalid User Id"));
      }
      if projectId !in projects {
        return Failure(NullPointer("Invalid Project Id"));
      }
      var project := projects[projectId];
      if !Rules.IsApplicationStatus(status) {
        return Failure(BadRequest("Invalid Project Status"));
      }
      var duplicate := IsRecordExist(userId, projectId, status.value);
      if duplicate.Some? {
        return Failure(duplicate.value);
      }
      Store.DistinctAppend(userProjects, UserProject(user.value.id, projectId, status.value));
      userProjects := userProjects + [UserProject(user.value.id, projectId, status.value)];
      r := Success(project);
      if status.value == "A" {
        var failure := Apply(user.value, projectId, project, skills, projectLink);
        if failure.Some? {
          r := Failure(failure.value);
        }
      }
    }

    method CreateProject(p: Project, now: int) returns (r: Result<(Id, Project)>)
      requires Valid()
      modifies this
      ensures (r, State()) == Rules.CreateProject(old(State()), p, now)
      ensures Valid()
    {
      var existing := Store.FindByNameAndOrganizationId(projects, nextProjectId, p.name, p.orgId);
      if existing.Some? {
        return Success((existing.value, projects[existing.value]));
      }
      var id := nextProjectId;
      var saved := Rules.SavedProject(organizations, p);
      projects := projects[id := saved];
      nextProjectId := nextProjectId + 1;
      if saved.orgId.None? {
        return Failure(NullPointer(""));
      }
      var orgId := saved.orgId.value;
      organizations := organizations[orgId := organizations[orgId].(projectUpdatedTime := Some(now))];
      NotifyUsers(id);
      return Success((id, p));
    }

    /** The notice loop of createProject: one email per subscribed user, in list order. */
    method NotifyUsers(projectId: Id)
      modifies this`outbox
      ensures outbox == old(outbox) + NotificationEmails(Store.FindUsersToNotify(users), projectId)
    {
      var notifyUsers := Store.FindUsersToNotify(users);
      for i := 0 to |notifyUsers|
        invariant outbox == old(outbox) + NotificationEmails(notifyUsers[..i], projectId)
      {
        NotificationEmailsAppend(notifyUsers, i, projectId);
        outbox := outbox + [NotificationEmail(notifyUsers[i].email, projectId)];
      }
      assert notifyUsers[..|notifyUsers|] == notifyUsers;
    }

    method UpdateProject(id: Id, p: Project) returns (r: Option<Project>)
      requires Valid()
      modifies this
      ensures (r, State()) == Rules.UpdateProject(old(State()), id, p)
      ensures Valid()
    {
      if id in projects {
        projects := projects[id := p];
        r := Some(p);
      } else {
        r := None;
      }
    }

    method DeleteProject(id: Id)
      requires Valid()
      modifies this
      ensures State() == Rules.DeleteProject(old(State()), id)
      ensures Valid()
    {
      if id in projects {
        userProjects := Store.DeleteByProjectStatus(userProjects, id, "B");
        projectSkills := Store.DeleteByProjectId(projectSkills, id);
        projects := projects - {id};
      }
    }

    method FindByOrganization(orgId: Id, status: Option<string>) returns (r: map<Id, Project>)
      requires Valid()
      modifies this
      ensures (r, State()) == Rules.FindByOrganization(old(State()), orgId, status)
      ensures Valid()
    {
      r := Store.ProjectsByOrganization(projects, orgId, status);
      if status == Some("N") && |r| == 0 {
        var draft := Rules.Draft(State(), orgId);
        projects := projects[nextProjectId := draft];
        nextProjectId := nextProjectId + 1;
        r := Store.ProjectsByOrganization(projects, orgId, status);
      }
    }
  }
}
