/** Records of the volunteer-matching store: projects, organisations, users,
    the user-project association, project skills, and the emails the service
    hands to its mail sender. Nullable Java references are `Option`s. */
module Entities {

  datatype Option<+T> = None | Some(value: T)

  /** Database identities; generated keys are never negative. */
  type Id = nat

  /** The exceptions the service lets escape to its caller. */
  datatype Error =
    | NullPointer(message: string)        // java.lang.NullPointerException ("" when it has no message)
    | BadRequest(message: string)         // org.c4sg.exception.BadRequestException
    | UserProjectFailure(message: string) // org.c4sg.exception.UserProjectException

  datatype Result<+T> = Success(value: T) | Failure(error: Error)

  /** A project row; `orgId` is the id of its organisation, None when the
      reference is null (a project saved for an organisation id that did not
      resolve). The same record carries the fields of a project dto. */
  datatype Project = Project(
    name: Option<string>,
    orgId: Option<Id>,
    status: Option<string>,
    remoteFlag: Option<string>)

  /** An organisation row; only the time of its latest new project is used here. */
  datatype Organization = Organization(projectUpdatedTime: Option<int>)

  datatype User = User(id: Id, email: Option<string>, notify: bool, orgId: Option<Id>)

  /** One application record: a user's status code on a project. */
  datatype UserProject = UserProject(userId: Id, projectId: Id, status: string)

  datatype ProjectSkill = ProjectSkill(projectId: Id, skillId: Id)

  /** The model map a template is rendered with. */
  datatype MailContext =
    | VolunteerApplication(user: Id, skills: seq<string>, project: Id, message: string)
    | ApplicantApplication(org: Id, user: Id, projectLink: string, project: Id)

  datatype Message =
    | Plain(body: string)                            // AsyncEmailService.send
    | Templated(template: string, context: MailContext) // AsyncEmailService.sendWithContext

  datatype Email = Email(from: string, to: Option<string>, subject: string, message: Message)

  /** The closed set of application status codes. */
  const ApplicationStatuses: set<string> := {"A", "B", "C", "D"}

  /** Spring's StringUtils.isEmpty: null or the empty string. */
  predicate IsEmpty(s: Option<string>) {
    s.None? || s.value == ""
  }
}
