/** The admin blueprint (admin_routes.py): the role gate of each of its
    seven handlers, the sub-admin creation form, the soft delete of an
    issue and the password change on the two settings pages. */
module AdminRoutes {
  import opened Json
  import opened Strings
  import opened Store
  import opened FirebaseSimple
  import opened AppRoutes

  // ---------------------------------------------------------------------
  // Role gates.

  /** `g.user and g.user['role'] in roles`. */
  predicate RoleIn(u: Option<SessionUser>, roles: set<string>) {
    u.Some? && u.value.role.Str? && u.value.role.s in roles
  }

  /** `admin_dashboard` admits both admin roles. */
  predicate DashboardAllowed(u: Option<SessionUser>) {
    RoleIn(u, {"subadmin", "supaadmin"})
  }

  /** `create_subadmin`, `admin_settings` and `system_settings`. */
  predicate SupaadminOnly(u: Option<SessionUser>) {
    RoleIn(u, {"supaadmin"})
  }

  /** `resolve_issue`, `admin_delete_issue` and `subadmin_settings`. */
  predicate SubadminOnly(u: Option<SessionUser>) {
    RoleIn(u, {"subadmin"})
  }

  /** The two admin roles split the blueprint: the sub-admin manages
      issues, the supa-admin manages accounts and settings, and both see
      the dashboard; a student or a legacy `admin` reaches none of it. */
  lemma GatesSplitTheRoles(u: SessionUser)
    ensures u.role == Str("supaadmin") ==>
      DashboardAllowed(Some(u)) && SupaadminOnly(Some(u)) && !SubadminOnly(Some(u))
    ensures u.role == Str("subadmin") ==>
      DashboardAllowed(Some(u)) && SubadminOnly(Some(u)) && !SupaadminOnly(Some(u))
    ensures u.role != Str("supaadmin") && u.role != Str("subadmin") ==>
      !DashboardAllowed(Some(u)) && !SupaadminOnly(Some(u)) && !SubadminOnly(Some(u))
    ensures !DashboardAllowed(None) && !SupaadminOnly(None) && !SubadminOnly(None)
  {
  }

  const DashboardEndpoint: string := "admin.admin_dashboard"
  const AdminRequired: string := "Access denied. Admin privileges required."
  const SupaadminRequired: string := "Access denied. Supa Admin privileges required."
  const SubadminRequired: string := "Access denied. Sub Admin privileges required."
  const IssueManagementDenied: string := "Access denied. Sub Admin privileges required for issue management."
  const SystemSettingsDenied: string := "Access denied. Supa Admin privileges required for system settings."

  // ---------------------------------------------------------------------
  // `admin_dashboard`.

  /** One dashboard row: the issue with the username of its student, or
      `'Unknown'`; `issue['student_id']` and `user['username']` raise
      KeyError when the field is missing. */
  function Annotated(users: seq<Entry<Record>>, issue: Record): Outcome<Record> {
    if "student_id" !in issue then Raise("KeyError")
    else
      var owner := if issue["student_id"].Str? then ById(users, issue["student_id"].s) else None;
      match owner
      case None => Return(issue["username" := Str("Unknown")])
      case Some(user) =>
        if "username" !in user then Raise("KeyError")
        else Return(issue["username" := user["username"]])
  }

  /** The rows of the first `n` issues, or the first KeyError among them. */
  function AnnotatedPrefix(users: seq<Entry<Record>>, issues: seq<Record>, n: nat): Outcome<seq<Record>>
    requires n <= |issues|
  {
    if n == 0 then Return([])
    else match AnnotatedPrefix(users, issues, n - 1)
      case Raise(e) => Raise(e)
      case Return(rows) =>
        match Annotated(users, issues[n - 1])
        case Raise(e) => Raise(e)
        case Return(row) => Return(rows + [row])
  }

  /** The rows are the annotated issues one for one, and the dashboard
      fails exactly when some issue's annotation raises. */
  lemma {:induction false} AnnotatedPrefixMeaning(users: seq<Entry<Record>>, issues: seq<Record>, n: nat)
    requires n <= |issues|
    ensures var r := AnnotatedPrefix(users, issues, n);
      r.Return? ==> |r.value| == n && forall i :: 0 <= i < n ==> Annotated(users, issues[i]) == Return(r.value[i])
    ensures AnnotatedPrefix(users, issues, n).Raise? <==> exists i :: 0 <= i < n && Annotated(users, issues[i]).Raise?
  {
    if n > 0 {
      AnnotatedPrefixMeaning(users, issues, n - 1);
    }
  }

  /** `admin_dashboard`: every issue, newest first, each with the username
      of its student; anyone but the two admin roles goes to the login page. */
  method AdminDashboard(db: SimpleFirebaseDB, u: Option<SessionUser>) returns (reply: Outcome<Reply>, rows: seq<Record>)
    ensures !DashboardAllowed(u) ==> reply == Return(Redirect("login", Error(AdminRequired))) && rows == []
    ensures DashboardAllowed(u) ==>
      var expected := AnnotatedPrefix(db.Users(), SortBy(WithIds(db.Issues()), CreatedAtKey, true),
                                      |db.Issues()|);
      (expected.Raise? ==> reply.Raise?) &&
      (expected.Return? ==> reply == Return(Render("admin_dashboard.html", None)) && rows == expected.value)
  {
    rows := [];
    if !DashboardAllowed(u) {
      return Return(Redirect("login", Error(AdminRequired))), [];
    }
    var issues := db.GetAllIssues();
    var users := db.Users();
    var i := 0;
    while i < |issues|
      invariant i <= |issues|
      invariant AnnotatedPrefix(users, issues, i) == Return(rows)
    {
      var row := Annotated(users, issues[i]);
      if row.Raise? {
        AnnotatedPrefixMeaning(users, issues, |issues|);
        return Raise(row.error), rows;
      }
      rows := rows + [row.value];
      i := i + 1;
    }
    reply := Return(Render("admin_dashboard.html", None));
  }

  // ---------------------------------------------------------------------
  // `create_subadmin`.

  const KtuDomain: string := "@ktu.edu.gh"
  const KtuEmailRequired: string := "Email must be a KTU institutional email (@ktu.edu.gh)"
  const SubadminCreated: string := "Sub-admin account created successfully."
  const SubadminFailed: string := "Failed to create sub-admin: "
  const CreateSubadminPage: string := "create_subadmin.html"

  /** The posted fields of `create_subadmin`, as submitted. */
  datatype SubadminForm = SubadminForm(username: string, password: string, email: string,
                                       firstName: string, lastName: string)

  /** The keyword arguments `create_subadmin` hands to `create_user`. */
  function SubadminExtra(f: SubadminForm): (extra: Record)
    ensures Get(extra, "email") == Str(Strip(f.email)) && Get(extra, "student_id") == Null
  {
    map["first_name" := Str(Strip(f.firstName)), "last_name" := Str(Strip(f.lastName)),
        "email" := Str(Strip(f.email))]
  }

  /** The account `create_subadmin` stores for a form: role `subadmin`,
      the stripped lower-case username, the stripped institutional email,
      and the submitted password as the only one that checks. */
  function SubadminRecord(f: SubadminForm, now: int): (rec: Record)
  {
    NewUserRecord(StripLower(f.username), f.password, "subadmin", SubadminExtra(f), now)
  }

  lemma SubadminAccount(f: SubadminForm, now: int)
    requires EndsWith(Strip(f.email), KtuDomain)
    ensures Get(SubadminRecord(f, now), "role") == Str("subadmin")
    ensures var name := Get(SubadminRecord(f, now), "username");
      name.Str? && Trimmed(name.s) && NoUpper(name.s) && name.s == StripLower(name.s)
    ensures var email := Get(SubadminRecord(f, now), "email");
      email.Str? && EndsWith(email.s, KtuDomain) && Trimmed(email.s)
    ensures forall q :: CheckPasswordHash(StoredPassword(SubadminRecord(f, now)), q) <==> q == f.password
  {
    var extra := SubadminExtra(f);
    NewUserIdentity(StripLower(f.username), f.password, "subadmin", extra, now);
    assert GetOr(extra, "email", Str("")) == Str(Strip(f.email));
    StripCaseIdempotent(f.username);
  }

  /** `create_subadmin`: a supa-admin only; a GET (no form) shows the page;
      an email outside `@ktu.edu.gh` is refused before anything is
      written; otherwise `create_user` decides and its refusal is shown. */
  method CreateSubadmin(db: SimpleFirebaseDB, u: Option<SessionUser>, form: Option<SubadminForm>, now: int)
    returns (reply: Reply, id: Option<string>)
    requires db.Valid()
    modifies db`users
    ensures db.Valid()
    ensures id.None? ==> db.users == old(db.users)
    ensures !SupaadminOnly(u) ==> reply == Redirect(DashboardEndpoint, Error(SupaadminRequired)) && id.None?
    ensures SupaadminOnly(u) && form.None? ==> reply == Render(CreateSubadminPage, None) && id.None?
    ensures SupaadminOnly(u) && form.Some? && !EndsWith(Strip(form.value.email), KtuDomain) ==>
      reply == Render(CreateSubadminPage, Error(KtuEmailRequired)) && id.None?
    ensures SupaadminOnly(u) && form.Some? && EndsWith(Strip(form.value.email), KtuDomain) ==>
      var rejection := CreateRejection(old(db.Users()), StripLower(form.value.username), SubadminExtra(form.value));
      (rejection.Some? ==> reply == Render(CreateSubadminPage, Error(SubadminFailed + rejection.value)) && id.None?) &&
      (rejection.None? && !db.online ==>
        reply == Render(CreateSubadminPage, Error(SubadminFailed + "Failed to create user")) && id.None?) &&
      (rejection.None? && db.online ==>
        reply == Redirect(DashboardEndpoint, Success(Str(SubadminCreated))) && id.Some? &&
        db.users == old(db.users) + [Entry(id.value, SubadminRecord(form.value, now))])
  {
    id := None;
    if !SupaadminOnly(u) {
      return Redirect(DashboardEndpoint, Error(SupaadminRequired)), None;
    }
    if form.None? {
      return Render(CreateSubadminPage, None), None;
    }
    var f := form.value;
    var email := Strip(f.email);
    if !EndsWith(email, KtuDomain) {
      return Render(CreateSubadminPage, Error(KtuEmailRequired)), None;
    }
    var msg;
    id, msg := db.CreateUser(StripLower(f.username), f.password, "subadmin", SubadminExtra(f), now);
    reply := if id.Some? then Redirect(DashboardEndpoint, Success(Str(SubadminCreated)))
             else Render(CreateSubadminPage, Error(SubadminFailed + msg));
  }

  // ---------------------------------------------------------------------
  // `resolve_issue` and `admin_delete_issue`.

  const IssueResolved: string := "Issue updated successfully."
  const ResolveFailed: string := "Failed to update issue: "
  const IssueDeleted: string := "Issue deleted successfully."
  const DeleteFailed: string := "Failed to delete issue: "
  const DeletedStatus: string := "deleted"
  const DeletedResponse: string := "Issue deleted by admin"

  /** `resolve_issue`: a sub-admin only; `status` and `response` are the
      form values, Null when absent, passed on to `update_issue_status`. */
  method ResolveIssue(db: SimpleFirebaseDB, u: Option<SessionUser>, issueId: string, status: Value, response: Value,
                      now: int) returns (reply: Reply)
    requires db.Valid()
    modifies db`issues
    ensures db.Valid()
    ensures !SubadminOnly(u) ==>
      reply == Redirect(DashboardEndpoint, Error(IssueManagementDenied)) && db.issues == old(db.issues)
    ensures SubadminOnly(u) && ById(old(db.Issues()), issueId).None? ==>
      reply == Redirect(DashboardEndpoint, Error(ResolveFailed + "Failed to update issue")) &&
      db.issues == old(db.issues)
    ensures SubadminOnly(u) && ById(old(db.Issues()), issueId).Some? ==>
      reply == Redirect(DashboardEndpoint, Success(Str(IssueResolved))) &&
      db.issues == Put(old(db.issues), issueId, IssueUpdated(ById(old(db.Issues()), issueId).value, status, response, now))
  {
    if !SubadminOnly(u) {
      return Redirect(DashboardEndpoint, Error(IssueManagementDenied));
    }
    var ok, msg := db.UpdateIssueStatus(issueId, status, response, now);
    reply := if ok then Redirect(DashboardEndpoint, Success(Str(IssueResolved)))
             else Redirect(DashboardEndpoint, Error(ResolveFailed + msg));
  }

  /** `admin_delete_issue`: a soft delete. The issue stays under its id
      with status `deleted` and the admin's response; a missing issue is
      reported and nothing is written. */
  method AdminDeleteIssue(db: SimpleFirebaseDB, u: Option<SessionUser>, issueId: string, now: int) returns (reply: Reply)
    requires db.Valid()
    modifies db`issues
    ensures db.Valid()
    ensures !SubadminOnly(u) ==>
      reply == Redirect(DashboardEndpoint, Error(IssueManagementDenied)) && db.issues == old(db.issues)
    ensures SubadminOnly(u) && ById(old(db.Issues()), issueId).None? ==>
      reply == Redirect(DashboardEndpoint, Error(IssueNotFound)) && db.issues == old(db.issues)
    ensures SubadminOnly(u) && ById(old(db.Issues()), issueId).Some? ==>
      reply == Redirect(DashboardEndpoint, Success(Str(IssueDeleted))) &&
      db.issues == Put(old(db.issues), issueId,
                       IssueUpdated(ById(old(db.Issues()), issueId).value, Str(DeletedStatus), Str(DeletedResponse), now))
  {
    if !SubadminOnly(u) {
      return Redirect(DashboardEndpoint, Error(IssueManagementDenied));
    }
    var issue := db.GetIssueById(issueId);
    if issue.None? {
      return Redirect(DashboardEndpoint, Error(IssueNotFound));
    }
    var ok, msg := db.UpdateIssueStatus(issueId, Str(DeletedStatus), Str(DeletedResponse), now);
    reply := if ok then Redirect(DashboardEndpoint, Success(Str(IssueDeleted)))
             else Redirect(DashboardEndpoint, Error(DeleteFailed + msg));
  }

  /** A soft delete keeps every issue id, keeps the issue readable under
      its id with status `deleted`, and touches no other issue. */
  lemma {:induction false} SoftDeleteKeepsIssue(issues: seq<Entry<Record>>, id: string, now: int)
    requires UniqueIds(issues) && ById(issues, id).Some?
    ensures var after := Put(issues, id, IssueUpdated(ById(issues, id).value, Str(DeletedStatus), Str(DeletedResponse), now));
      Ids(after) == Ids(issues) && |after| == |issues| &&
      ById(after, id).Some? && Get(ById(after, id).value, "status") == Str(DeletedStatus) &&
      Get(ById(after, id).value, "response") == Str(DeletedResponse) &&
      Get(ById(after, id).value, "student_id") == Get(ById(issues, id).value, "student_id") &&
      forall j :: j != id ==> ById(after, j) == ById(issues, j)
  {
    var before := ById(issues, id).value;
    var rec := IssueUpdated(before, Str(DeletedStatus), Str(DeletedResponse), now);
    var after := Put(issues, id, rec);
    PutFrame(issues, id, rec);
    assert Lookup(issues, id).Some?;
    assert rec != map[] by { assert "status" in rec; }
    assert Get(WithId(rec, id), "student_id") == Get(rec, "student_id");
  }

  // ---------------------------------------------------------------------
  // `admin_settings` and `subadmin_settings`.

  const SettingsUpdated: string := "Settings updated successfully."
  const OwnPasswordUpdated: string := "Password updated successfully."
  const PasswordUpdateFailed: string := "Failed to update password: "

  /** The posted fields of the two settings pages. */
  datatype PasswordForm = PasswordForm(password: string, confirm: string)

  /** The error the settings pages flash for a posted form: none for an
      empty password (nothing changes), a mismatch, or the refusal of
      `update_user_password`. */
  function OwnPasswordError(users: seq<Entry<Record>>, username: string, f: PasswordForm): Option<string> {
    if f.password == "" then None
    else if f.password != f.confirm then Some(PasswordMismatch)
    else if FirstUserIndex(users, username).None? then Some(PasswordUpdateFailed + "User not found")
    else None
  }

  /** The POST half the two settings pages share: the password changes
      only when it is non-empty and confirmed, and then to the new one. */
  method ChangeOwnPassword(db: SimpleFirebaseDB, username: string, f: PasswordForm, now: int)
    returns (error: Option<string>)
    requires db.Valid()
    modifies db`users
    ensures db.Valid()
    ensures error == OwnPasswordError(old(db.Users()), username, f)
    ensures f.password == "" || f.password != f.confirm ==> db.users == old(db.users)
    ensures f.password != "" && f.password == f.confirm ==>
      db.users == if db.online then PasswordWritten(old(db.users), username, f.password, now) else old(db.users)
    ensures error.None? && f.password != "" ==>
      FirstUserIndex(old(db.Users()), username).Some? &&
      db.users == PasswordWritten(old(db.users), username, f.password, now)
  {
    if f.password == "" {
      return None;
    }
    if f.password != f.confirm {
      return Some(PasswordMismatch);
    }
    var ok, msg := db.UpdateUserPassword(username, f.password, now);
    error := if ok then None else Some(PasswordUpdateFailed + msg);
  }

  /** The flash a settings page shows after a POST. */
  function SettingsFlash(error: Option<string>, done: string): Option<Flash> {
    if error.Some? then Error(error.value) else Success(Str(done))
  }

  /** `admin_settings`: a supa-admin only; a POST may change the
      supa-admin's own password. */
  method AdminSettings(db: SimpleFirebaseDB, u: Option<SessionUser>, form: Option<PasswordForm>, now: int)
    returns (reply: Reply)
    requires db.Valid()
    modifies db`users
    ensures db.Valid()
    ensures !SupaadminOnly(u) ==>
      reply == Redirect(DashboardEndpoint, Error(SystemSettingsDenied)) && db.users == old(db.users)
    ensures SupaadminOnly(u) && form.None? ==> reply == Render("admin_settings.html", None) && db.users == old(db.users)
    ensures SupaadminOnly(u) && form.Some? ==>
      reply == Render("admin_settings.html",
                      SettingsFlash(OwnPasswordError(old(db.Users()), u.value.username, form.value), SettingsUpdated))
    ensures db.users != old(db.users) ==>
      SupaadminOnly(u) && form.Some? && form.value.password != "" && form.value.password == form.value.confirm &&
      db.users == PasswordWritten(old(db.users), u.value.username, form.value.password, now)
  {
    if !SupaadminOnly(u) {
      return Redirect(DashboardEndpoint, Error(SystemSettingsDenied));
    }
    if form.None? {
      return Render("admin_settings.html", None);
    }
    var error := ChangeOwnPassword(db, u.value.username, form.value, now);
    reply := Render("admin_settings.html", SettingsFlash(error, SettingsUpdated));
  }

  /** `subadmin_settings`: a sub-admin only, turned away to the login
      page; a POST may change the sub-admin's own password. */
  method SubadminSettings(db: SimpleFirebaseDB, u: Option<SessionUser>, form: Option<PasswordForm>, now: int)
    returns (reply: Reply)
    requires db.Valid()
    modifies db`users
    ensures db.Valid()
    ensures !SubadminOnly(u) ==> reply == Redirect("login", Error(SubadminRequired)) && db.users == old(db.users)
    ensures SubadminOnly(u) && form.None? ==> reply == Render("subadmin_settings.html", None) && db.users == old(db.users)
    ensures SubadminOnly(u) && form.Some? ==>
      reply == Render("subadmin_settings.html",
                      SettingsFlash(OwnPasswordError(old(db.Users()), u.value.username, form.value), OwnPasswordUpdated))
    ensures db.users != old(db.users) ==>
      SubadminOnly(u) && form.Some? && form.value.password != "" && form.value.password == form.value.confirm &&
      db.users == PasswordWritten(old(db.users), u.value.username, form.value.password, now)
  {
    if !SubadminOnly(u) {
      return Redirect("login", Error(SubadminRequired));
    }
    if form.None? {
      return Render("subadmin_settings.html", None);
    }
    var error := ChangeOwnPassword(db, u.value.username, form.value, now);
    reply := Render("subadmin_settings.html", SettingsFlash(error, OwnPasswordUpdated));
  }

  /** Were the settings pages to write the new hash where `verify_password`
      reads it, after a change the new password would be the only one that
      checks for that user. */
  lemma {:induction false} OwnPasswordReplacedCorrected(users: seq<Entry<Record>>, username: string, password: string,
                                                        now: int, q: string)
    requires UniqueIds(users) && FirstUserIndex(users, username).Some?
    ensures VerifyPasswordSpec(CorrectedWritten(users, username, password, now), username, q).Some? <==> q == password
  {
    var i := FirstUserIndex(users, username).value;
    var u := PasswordCorrected(WithId(users[i].rec, users[i].id), password, now);
    RewriteFound(users, i, username, u);
    var after := CorrectedWritten(users, username, password, now);
    assert FindBy(after, "username", Str(username)) == Some(WithId(u, users[i].id));
    assert StoredPassword(WithId(u, users[i].id)) == StoredPassword(u);
  }

  // ---------------------------------------------------------------------
  // `system_settings`.

  /** `system_settings`: a supa-admin only; the page itself edits nothing. */
  function SystemSettings(u: Option<SessionUser>): (r: Reply)
    ensures r.Render? <==> SupaadminOnly(u)
    ensures !SupaadminOnly(u) ==> r == Redirect(DashboardEndpoint, Error(SupaadminRequired))
  {
    if SupaadminOnly(u) then Render("system_settings.html", None)
    else Redirect(DashboardEndpoint, Error(SupaadminRequired))
  }
}
