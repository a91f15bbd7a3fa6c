/** The emails ProjectServiceImpl hands to its asynchronous mail sender: the
    new-project notice of createProject and the two application emails of
    apply. Sending is modelled as appending to an outbox. */
module Notifications {
  import opened Entities
  import opened Decimal
  import Store

  const FromEmail := "info@code4socialgood.org"
  const SubjectOrganization := "You received an application from Code for Social Good"
  const BodyOrganization := "You received an application from Code for Social Good. Please login to the dashboard to review the application."
  const SubjectNotification := "Code for Social Good: New Project Notification"
  // The source's wording, misspelling included.
  const BodyNotification := "You have registered to recieve notification on new projects.\n"
                            + "The following new project has been created:\n" + "http://dev.code4socialgood.org/project/view/"
  const SubjectApplicant := "Your C4SG Application was created"
  const VolunteerTemplate := "volunteer-application"
  const ApplicantTemplate := "applicant-application"

  // ---- new-project notice ----

  /** The notice body: the fixed text followed by the project id in decimal. */
  function NotificationBody(projectId: Id): string {
    BodyNotification + NatToString(projectId)
  }

  function NotificationEmail(to: Option<string>, projectId: Id): Email {
    Email(FromEmail, to, SubjectNotification, Plain(NotificationBody(projectId)))
  }

  /** Reads the project id back out of a notice body. */
  function NotificationProjectId(body: string): Option<Id> {
    var n := |BodyNotification|;
    if |body| > n && body[..n] == BodyNotification && AllDigits(body[n..])
    then Some(ParseNat(body[n..]))
    else None
  }

  /** Every notice names its project: the id can be read back from the body. */
  lemma NotificationBodyRoundTrip(projectId: Id)
    ensures NotificationProjectId(NotificationBody(projectId)) == Some(projectId)
  {
    var body := NotificationBody(projectId);
    var n := |BodyNotification|;
    assert body[..n] == BodyNotification;
    assert body[n..] == NatToString(projectId);
    ParseNatToString(projectId);
  }

  /** Notices of two different projects differ. */
  lemma NotificationBodyInjective(a: Id, b: Id)
    requires NotificationBody(a) == NotificationBody(b)
    ensures a == b
  {
    NotificationBodyRoundTrip(a);
    NotificationBodyRoundTrip(b);
  }

  /** One notice per recipient, in recipient order. */
  function NotificationEmails(recipients: seq<User>, projectId: Id): (r: seq<Email>)
    ensures |r| == |recipients|
    ensures forall i :: 0 <= i < |r| ==> r[i] == NotificationEmail(recipients[i].email, projectId)
    decreases |recipients|
  {
    if recipients == [] then []
    else [NotificationEmail(recipients[0].email, projectId)] + NotificationEmails(recipients[1..], projectId)
  }

  lemma NotificationEmailsAppend(recipients: seq<User>, i: nat, projectId: Id)
    requires i < |recipients|
    ensures NotificationEmails(recipients[..i + 1], projectId)
         == NotificationEmails(recipients[..i], projectId) + [NotificationEmail(recipients[i].email, projectId)]
  {
    var lhs := NotificationEmails(recipients[..i + 1], projectId);
    var rhs := NotificationEmails(recipients[..i], projectId) + [NotificationEmail(recipients[i].email, projectId)];
    assert |lhs| == |rhs|;
    forall k | 0 <= k < |lhs| ensures lhs[k] == rhs[k] {
      assert recipients[..i + 1][k] == recipients[k];
      if k < i { assert recipients[..i][k] == recipients[k]; }
    }
  }

  // ---- application emails ----

  /** The "volunteer-application" email; it goes to the applicant's own address. */
  function VolunteerApplicationEmail(applicant: User, skills: seq<string>, projectId: Id): Email {
    Email(FromEmail, applicant.email, SubjectOrganization,
          Templated(VolunteerTemplate, VolunteerApplication(applicant.id, skills, projectId, BodyOrganization)))
  }

  /** The "applicant-application" email; its context names the organisation's first user. */
  function ApplicantApplicationEmail(applicant: User, orgId: Id, orgUser: User, projectLink: string, projectId: Id): Email {
    Email(FromEmail, applicant.email, SubjectApplicant,
          Templated(ApplicantTemplate, ApplicantApplication(orgId, orgUser.id, projectLink, projectId)))
  }

  predicate HasTemplate(emails: seq<Email>, template: string) {
    exists e :: e in emails && e.message.Templated? && e.message.template == template
  }

  /** The emails apply sends when a user applies to a project of organisation
      orgId: nothing when the organisation has no users; otherwise the
      volunteer-application email when the applicant has an address, then the
      applicant-application email when the organisation resolves. */
  function ApplicationEmails(users: seq<User>, organizations: map<Id, Organization>, applicant: User,
                             projectId: Id, orgId: Id, skills: seq<string>, projectLink: string): (r: seq<Email>)
    ensures forall e :: e in r ==> e.from == FromEmail && e.to == applicant.email
    ensures Store.FindUsersByOrgId(users, orgId) == [] ==> r == []
    ensures HasTemplate(r, VolunteerTemplate) <==> Store.FindUsersByOrgId(users, orgId) != [] && !IsEmpty(applicant.email)
    ensures HasTemplate(r, ApplicantTemplate) <==> Store.FindUsersByOrgId(users, orgId) != [] && orgId in organizations
    // one email per template that is sent, so neither is sent twice
    ensures |r| == (if HasTemplate(r, VolunteerTemplate) then 1 else 0) + (if HasTemplate(r, ApplicantTemplate) then 1 else 0)
    // the volunteer email carries the skills, the project and the organisation text
    ensures forall e :: e in r && e.message.Templated? && e.message.template == VolunteerTemplate ==>
              e == VolunteerApplicationEmail(applicant, skills, projectId)
    // the applicant email carries the project link and names a user of the organisation
    ensures forall e :: e in r && e.message.Templated? && e.message.template == ApplicantTemplate ==>
              exists u :: u in users && u.orgId == Some(orgId) && e == ApplicantApplicationEmail(applicant, orgId, u, projectLink, projectId)
  {
    var orgUsers := Store.FindUsersByOrgId(users, orgId);
    if orgUsers == [] then []
    else
      assert orgUsers[0] in orgUsers;
      var volunteer := if !IsEmpty(applicant.email) then [VolunteerApplicationEmail(applicant, skills, projectId)] else [];
      var toApplicant := if orgId in organizations then [ApplicantApplicationEmail(applicant, orgId, orgUsers[0], projectLink, projectId)] else [];
      assert toApplicant != [] ==> toApplicant[0] in volunteer + toApplicant;
      assert volunteer != [] ==> volunteer[0] in volunteer + toApplicant;
      volunteer + toApplicant
  }
}
