# ProjectServiceImpl business rules, in Dafny

This project models the service layer of the Code for Social Good
volunteer-matching platform: `ProjectServiceImpl`. Organisations post
projects. Volunteers (users) apply to them. Email notices go out when a
user applies and when a project is created. The service's storage sits
behind DAOs. Above them it enforces a small set of state rules, and those
rules are what this model states and proves:

- **saveUserProject** records an application. It checks, in order, that the
  user resolves, the project resolves, the status is one of `A`, `B`, `C`,
  `D`, and no identical (user, project, status) row exists. Then it appends
  one row. Only status `A` runs `apply`, which sends the application emails.
- **createProject** does nothing when a project with the same name and
  organisation exists. Otherwise it stores the project, stamps the
  organisation's `projectUpdatedTime`, and sends one notice per subscribed
  user. Each notice body ends with the new project's id.
- **updateProject** overwrites an existing project and is a no-op on a
  missing id.
- **deleteProject** removes the project's status-`B` application rows, all
  its skill rows, and then the project. A missing id is a no-op.
- **findByOrganization** with status `N` creates a draft project (status
  `N`, remote flag `Y`) when the organisation has none.
- **findById**, **findByName**, **findByUser** and **findProjects** are
  lookups over the store.

Layout:

- `entities.dfy` (module `Entities`): the rows, the emails, and the
  exceptions as an `Error` inside a `Result`.
- `decimal.dfy` (module `Decimal`): how an `Integer` id is rendered in a
  string, and the parse that reads it back.
- `store.dfy` (module `Store`): each DAO query and delete the service calls,
  as a function over the table it reads.
- `notifications.dfy` (module `Notifications`): the mail constants and the
  emails of `apply` and `createProject`.
- `rules.dfy` (module `Rules`): the whole store as one value `Db`, the store
  invariant `Valid`, one function per service operation, and lemmas that
  relate several calls.
- `project_service.dfy` (module `ProjectService`): the class
  `ProjectServiceImpl`. Each DAO table is a field, and sending mail appends
  to the `outbox` field. Each method updates the fields step by step, as the
  Java does. Each method is proved to keep `Valid()` and to return exactly
  what the matching `Rules` function returns, leaving exactly the store that
  function returns (`(r, State()) == Rules.X(old(State()), …)`).

External inputs are parameters:

- `skills` is what `skillService.findSkillsForUser` returns.
- `projectLink` is what `urlService.getProjectUrl` returns.
- `now` is the clock reading behind `Calendar.getInstance()`.
- The project value passed to `updateProject` is taken to be the entity the
  mapper builds from the DTO. For `createProject` the value carries the DTO's
  fields. The row saved is `Rules.SavedProject`: the same fields, with a null
  organisation when the DTO's organisation id does not resolve.

Behaviour of the code worth knowing:

- `apply` carries `@Async`, but it is private and called from the same
  object, so Spring runs it inline. When the project has no organisation,
  line 231 throws a `NullPointerException`. This happens after the
  application row was saved, and it reaches the caller. The model returns
  `Failure(NullPointer(""))` and keeps the row.
- Both application emails go to the applicant's own address (lines 245 and
  257). The model sends them there.
- When a new project's organisation id does not resolve, the saved project
  has a null organisation, so line 158 throws after the save. The model keeps
  that project, returns `Failure(NullPointer(""))`, and leaves organisations
  and outbox unchanged. The duplicate lookup at lines 147-148 asks for the
  DTO's organisation id and so never finds that row: every such call saves
  one more project (`Rules.CreateProjectUnresolvedRepeats`).
- When the organisation does not exist, `findByOrganization(orgId, "N")`
  still saves a draft. That draft has a null organisation, so the
  re-query returns nothing. A later call saves another one.
  `Rules.FindByOrganization` states this case.
- `deleteProject` keeps the project's rows in statuses `A`, `C` and `D`. Those
  rows then name a project that no longer exists
  (`Rules.DeleteProjectKeepsOtherStatusRows`).

## Model

All source paths are in `src/main/java/org/c4sg/service/impl/`.

| member | source | states |
|---|---|---|
| Rules.SaveUserProject | src/main/java/org/c4sg/service/impl/ProjectServiceImpl.java:186-208 | Unknown user fails with "Invalid User Id". Unknown project fails with "Invalid Project Id". A null status or one outside {A,B,C,D} fails with BadRequest. A duplicate (user, project, status) fails with "Record already exist". In all four cases the store and outbox are unchanged. Otherwise exactly the row (user, project, status) is appended and nothing else changes except the outbox. The outbox grows only for "A": by the application emails, or not at all with an NPE when the project has no organisation. The invariant is kept. |
| ProjectService.ProjectServiceImpl.SaveUserProject | src/main/java/org/c4sg/service/impl/ProjectServiceImpl.java:186-208 | The step-by-step method returns and leaves exactly what Rules.SaveUserProject gives for the old store, and keeps Valid(). |
| ProjectService.ProjectServiceImpl.IsRecordExist | src/main/java/org/c4sg/service/impl/ProjectServiceImpl.java:264-276 | The loop over the DAO's matching rows fails with "Record already exist" if and only if a row (user, project, status) is stored. |
| ProjectService.ProjectServiceImpl.Apply | src/main/java/org/c4sg/service/impl/ProjectServiceImpl.java:229-262 | A project without an organisation throws and no mail is sent. Otherwise the outbox grows by exactly the ApplicationEmails. |
| Notifications.ApplicationEmails | src/main/java/org/c4sg/service/impl/ProjectServiceImpl.java:231-258 | All emails are from the service address to the applicant's address. None when the organisation has no users. The volunteer-application email is sent iff the organisation has users and the applicant's email is non-empty. The applicant-application email is sent iff the organisation has users and resolves. Each is sent at most once, and nothing else is sent. The volunteer email has the organisation subject, the skills, the project and the organisation body text. The applicant email has the applicant subject, the project link, the project, the organisation and one of its users. |
| Rules.SaveUserProjectRejectsRepeat | src/main/java/org/c4sg/service/impl/ProjectServiceImpl.java:186-208 | Repeating an accepted (user, project, status) fails with "Record already exist" and leaves the state the first call produced. |
| Rules.SaveUserProjectOtherStatus | src/main/java/org/c4sg/service/impl/ProjectServiceImpl.java:264-276 | After one status is recorded for a (user, project) pair, a different valid status for the same pair is still accepted as a new row. |
| Rules.SaveUserProjectThenFindByUser | src/main/java/org/c4sg/service/impl/ProjectServiceImpl.java:120-125 | After an accepted application, findByUser for that user and status lists the project. |
| Rules.CreateProject | src/main/java/org/c4sg/service/impl/ProjectServiceImpl.java:146-172 | If a project with the same (name, organisation) exists, the store is unchanged (no organisation stamp, no email) and a stored project with that name and organisation is returned. Otherwise exactly one project is added under a fresh id. If the organisation resolves, the DTO's project is saved, the organisation's projectUpdatedTime becomes now, and one notice per subscribed user is appended. If it does not resolve, the project is saved with a null organisation and an NPE is returned, with organisations and outbox unchanged. The invariant is kept. |
| Rules.SavedProject | src/main/java/org/c4sg/service/impl/ProjectServiceImpl.java:153-158 | The saved entity keeps the DTO's name, status and remote flag. It has an organisation iff the DTO's organisation id resolves, and is then the DTO's project. |
| ProjectService.ProjectServiceImpl.CreateProject | src/main/java/org/c4sg/service/impl/ProjectServiceImpl.java:146-172 | The step-by-step method returns and leaves exactly what Rules.CreateProject gives for the old store, and keeps Valid(). |
| ProjectService.ProjectServiceImpl.NotifyUsers | src/main/java/org/c4sg/service/impl/ProjectServiceImpl.java:161-168 | The loop appends exactly NotificationEmails of the subscribed users, in list order. |
| Notifications.NotificationEmails | src/main/java/org/c4sg/service/impl/ProjectServiceImpl.java:163-168 | One email per recipient, in recipient order. The i-th goes to the i-th recipient with the notice subject and the body for the project id. |
| Rules.CreateProjectTwice | src/main/java/org/c4sg/service/impl/ProjectServiceImpl.java:147-151 | When the organisation resolves or none is given, a second createProject with the same (name, organisation) changes nothing, succeeds, and returns what a successful first call returned. |
| Rules.CreateProjectUnresolvedRepeats | src/main/java/org/c4sg/service/impl/ProjectServiceImpl.java:146-172 | With an organisation id that does not resolve, two calls both fail with an NPE and together add two projects. No email is sent. |
| Rules.FirstMatchIsUnique | src/main/java/org/c4sg/service/impl/ProjectServiceImpl.java:147-148 | When exactly one stored project has the name and organisation, the lookup createProject makes returns that project. |
| Rules.CreateProjectNotifiesEverySubscriber | src/main/java/org/c4sg/service/impl/ProjectServiceImpl.java:161-168 | On a first insert the new outbox suffix has one email per subscribed user. Each goes to that user, who is subscribed. Each body reads back as the new project's id. |
| Notifications.NotificationBodyRoundTrip | src/main/java/org/c4sg/service/impl/ProjectServiceImpl.java:161-168 | The project id can be read back from the notice body: the fixed text followed by the id. |
| Notifications.NotificationBodyInjective | src/main/java/org/c4sg/service/impl/ProjectServiceImpl.java:161-168 | Notices of different projects have different bodies. |
| Decimal.NatToString | src/main/java/org/c4sg/service/impl/ProjectServiceImpl.java:161-168 | The id in the body is a non-empty digit string with no leading zero. |
| Decimal.ParseNatToString | src/main/java/org/c4sg/service/impl/ProjectServiceImpl.java:161-168 | Parsing the decimal rendering of an id gives the id back. |
| Decimal.NatToStringInjective | src/main/java/org/c4sg/service/impl/ProjectServiceImpl.java:161-168 | Different ids render differently. |
| Rules.UpdateProject | src/main/java/org/c4sg/service/impl/ProjectServiceImpl.java:174-184 | A missing id returns null and leaves the store unchanged. An existing id is overwritten with the new value, which is returned. Nothing else changes and the set of ids is the same. |
| ProjectService.ProjectServiceImpl.UpdateProject | src/main/java/org/c4sg/service/impl/ProjectServiceImpl.java:174-184 | The method returns and leaves exactly what Rules.UpdateProject gives for the old store. |
| Rules.UpdateProjectThenFindById | src/main/java/org/c4sg/service/impl/ProjectServiceImpl.java:174-184 | After updateProject, findById returns the new value for an existing id and null for a missing one. |
| Rules.DeleteProject | src/main/java/org/c4sg/service/impl/ProjectServiceImpl.java:210-221 | A missing id leaves the store unchanged. For an existing id: the project is removed. Its status-B rows are removed and all other application rows remain. All its skill rows are removed and the other skill rows remain. Nothing else changes, and the invariant is kept. |
| ProjectService.ProjectServiceImpl.DeleteProject | src/main/java/org/c4sg/service/impl/ProjectServiceImpl.java:210-221 | The method leaves exactly the store Rules.DeleteProject gives for the old store. |
| Rules.DeleteProjectThenFindById | src/main/java/org/c4sg/service/impl/ProjectServiceImpl.java:210-221 | After deleteProject the id no longer resolves. Any other project, its application rows and its skill rows are unchanged. |
| Rules.DeleteProjectKeepsOtherStatusRows | src/main/java/org/c4sg/service/impl/ProjectServiceImpl.java:210-221 | A row of the deleted project in a status other than B survives the delete and then names a project that no longer resolves. |
| Rules.FindByOrganization | src/main/java/org/c4sg/service/impl/ProjectServiceImpl.java:127-144 | The result is the organisation query over the new store. No write happens unless status N is asked for and none matches. In that case exactly one project is added: status N, remote Y, under a fresh id. The result is then that one draft if the organisation exists, or empty if it does not. An existing organisation always gets a non-empty result for N. |
| ProjectService.ProjectServiceImpl.FindByOrganization | src/main/java/org/c4sg/service/impl/ProjectServiceImpl.java:127-144 | The method returns and leaves exactly what Rules.FindByOrganization gives for the old store. |
| Rules.FindByOrganizationCreatesOneDraft | src/main/java/org/c4sg/service/impl/ProjectServiceImpl.java:131-140 | For an existing organisation, a second draft request finds the first call's draft and writes nothing. |
| Rules.FindById | src/main/java/org/c4sg/service/impl/ProjectServiceImpl.java:88-90 | The stored project is returned iff the id is present, otherwise null. |
| Rules.FindByName | src/main/java/org/c4sg/service/impl/ProjectServiceImpl.java:92-94 | A returned project is stored and has that name, and no lower id has it. Null means no project has that name. |
| Rules.FindByUser | src/main/java/org/c4sg/service/impl/ProjectServiceImpl.java:120-125 | Exactly the stored projects on which the user holds a row in that status. |
| Rules.FindProjects | src/main/java/org/c4sg/service/impl/ProjectServiceImpl.java:83-86 | Every stored project appears with its value, in strictly decreasing id order. |
| Store.FindUserById | src/main/java/org/c4sg/service/impl/ProjectServiceImpl.java:189-190 | A returned user is stored and has that id. None means no stored user has it. |
| Store.FindUserByIdFindsTheUser | src/main/java/org/c4sg/service/impl/ProjectServiceImpl.java:189-190 | With user ids as keys, the lookup returns the one stored user with that id. |
| Store.FilterAppend | src/main/java/org/c4sg/service/impl/ProjectServiceImpl.java:162 | The DAO's row filters keep row order: filtering a concatenation gives the concatenation of the filtered parts. |
| Store.FilterCount | src/main/java/org/c4sg/service/impl/ProjectServiceImpl.java:162 | A kept row occurs in the result as often as in the table, and a dropped row not at all, so each subscriber gets one notice per row. |
| Store.FindUsersByOrgId | src/main/java/org/c4sg/service/impl/ProjectServiceImpl.java:232 | Exactly the users of that organisation. |
| Store.FindUsersToNotify | src/main/java/org/c4sg/service/impl/ProjectServiceImpl.java:162 | Exactly the subscribed users. |
| Store.FindUserProjects | src/main/java/org/c4sg/service/impl/ProjectServiceImpl.java:264-276 | Exactly the stored rows with that user, project and status. |
| Store.DeleteByProjectStatus | src/main/java/org/c4sg/service/impl/ProjectServiceImpl.java:210-221 | Keeps exactly the rows that are not (that project, that status). Keeps rows distinct. |
| Store.DeleteByProjectId | src/main/java/org/c4sg/service/impl/ProjectServiceImpl.java:210-221 | Keeps exactly the skill rows of other projects. |
| Store.FindByNameAndOrganizationId | src/main/java/org/c4sg/service/impl/ProjectServiceImpl.java:147-148 | A returned id holds a project with that name and organisation. None means no id below the bound holds one. |
| Store.ProjectsByOrganization | src/main/java/org/c4sg/service/impl/ProjectServiceImpl.java:129 | Exactly the organisation's projects, in the status asked for (any status when it is null). |
| Store.ProjectsByUser | src/main/java/org/c4sg/service/impl/ProjectServiceImpl.java:120-125 | Exactly the projects on which the user holds a row in that status. |
| Store.FindAllByOrderByIdDesc | src/main/java/org/c4sg/service/impl/ProjectServiceImpl.java:84 | Every project below the bound, with its value, largest id first. |

## Left out

- `search` (lines 96-118) is left out. It depends on Spring's paging types,
  and the keyword queries behind it are not shown.
- `save`, `saveImage` and `findJobTitles` are left out. Each passes straight
  through to one DAO call.
- Rules.CreateProject: `ProjectMapper` is not shown. The model's reading is
  that the mapper looks the organisation up by id and leaves it null when the
  id does not resolve. That is the only way line 158 can throw.
- `ProjectMapper` is not part of this model. DTOs and entities are treated as
  the same value.
- Spring wiring and `System.out` logging are left out. The S3 image clean-up
  is only a TODO in the source.
- Email delivery is out of scope. A send is an append to `outbox`.
- The `@Async` annotation is not modelled. It has no effect on a
  self-invoked private method.
- The skill service, the URL service and the clock are not part of this
  model. What they return is passed in as a parameter.
- Concurrency is not modelled, including the race between the duplicate
  check and the insert.
- Null `Integer` arguments (userId, projectId, orgId) are not modelled,
  because ids are natural numbers. A null status is modelled.
- `requireNonNull(userProjects)` at line 268 is not modelled, because a DAO
  list query never returns null.
- Database constraints and DAO exceptions are not modelled.
- Store.ProjectsByOrganization: the query text is not shown. The model's
  reading is that a null status means no status filter.
- Store.FindByNameAndOrganizationId and Rules.FindByName: the DAO returns a
  single project. When several match, the model chooses the lowest id.
- Rules.FindByOrganization, Rules.FindByUser and Store.ProjectsByUser return
  maps from id to project. They do not model the order of the Java lists.
- Rules.FindByUser: the status parameter is a non-null string.
- Template contexts are modelled by the ids and strings they carry, not by
  the whole entity objects.
