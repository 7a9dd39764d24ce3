/** The decision logic of the portal's Flask application
    (app_firebase_fixed.py): who is logged in, the registration checks, and
    the order of checks and store writes in login, e-mail verification,
    password reset and password change, plus the role checks of the issue
    and user pages. A handler's answer is a `Reply`: a redirect or a
    rendered page, each with the message flashed on the way. */
module AppRoutes {
  import opened Json
  import opened Strings
  import opened Store
  import opened Settings
  import opened FirebaseSimple

  datatype Flash = Flash(message: Value, category: string)

  datatype Reply =
    | Redirect(endpoint: string, flash: Option<Flash>)
    | Render(template: string, flash: Option<Flash>)

  function Error(msg: string): Option<Flash> {
    Some(Flash(Str(msg), "error"))
  }

  function Success(msg: Value): Option<Flash> {
    Some(Flash(msg, "success"))
  }

  // The messages the handlers flash.
  const CredentialsRequired: string := "Username and password are required."
  const LoginSucceeded: string := "Login successful!"
  const InvalidCredentials: string := "Invalid username or password."
  const LoggedOut: string := "You have been logged out."
  const RegistrationFailed: string := "Registration failed: "
  const RegisteredCheckEmail: string := "Registration successful! Please check your email for verification code."
  const RegisteredMailFailed: string := "Registration successful but failed to send verification email. Please contact support."
  const CodeRequired: string := "Please enter the verification code."
  const InvalidCode: string := "Invalid or expired verification code. Please try again."
  const UserNotFound: string := "User not found."
  const EmailVerified: string := "Email verified successfully! You can now log in."
  const VerificationNotSaved: string := "Failed to update verification status. Please try again."
  const PasswordResetDone: string := "Password reset successfully! You can now log in with your new password."
  const ResetFailed: string := "Failed to reset password: "
  const ResetFieldsRequired: string := "Please fill in all required fields."
  const ResetTooShort: string := "Password must be at least 8 characters long."
  const ChangeFieldsRequired: string := "All fields are required."
  const NewPasswordsDiffer: string := "New passwords do not match."
  const CurrentPasswordWrong: string := "Current password is incorrect."
  const PasswordChanged: string := "Password changed successfully!"
  const ChangeFailed: string := "Failed to change password: "
  const IssueNotFound: string := "Issue not found."
  const NoIssueAccess: string := "You do not have permission to view this issue."
  const NoIssueUpdate: string := "You do not have permission to update issues."
  const IssueSaved: string := "Issue updated successfully!"
  const UpdateFailed: string := "Failed to update issue: "

  /** `g.user`: the id, username and role of the logged-in user. */
  datatype SessionUser = SessionUser(id: string, username: string, role: Value)

  /** The signed session cookie: only `session['username']` is used. */
  class Session {
    var username: Option<string>

    constructor ()
      ensures username.None?
    {
      username := None;
    }
  }

  // ---------------------------------------------------------------------
  // Settings read with a default.

  /** `get_setting(path) or default`, for the path given as its keys. */
  function Configured(s: Value, keys: seq<string>, default: Value): (v: Value)
    ensures Truthy(default) ==> Truthy(v)
    ensures GetPath(s, keys).Some? && Truthy(GetPath(s, keys).value) ==> v == GetPath(s, keys).value
    ensures !(GetPath(s, keys).Some? && Truthy(GetPath(s, keys).value)) ==> v == default
  {
    match GetPath(s, keys)
    case Some(x) => if Truthy(x) then x else default
    case None => default
  }

  /** A dotted path of two dot-free keys splits back into the keys. */
  lemma DottedPath(a: string, b: string)
    requires '.' !in a && '.' !in b
    ensures Split(a + "." + b, '.') == [a, b]
  {
    assert Join([a, b], '.') == a + "." + b by {
      assert Join([a, b][1..], '.') == b;
    }
    assert SepFree([a, b], '.') by {
      assert [a, b][1..] == [b];
      assert [b][1..] == [];
    }
    SplitJoin([a, b], '.');
  }

  /** The settings paths the handlers read, as their two keys: the
      registration rules and the `notification_messages` texts. */
  const DomainKey: seq<string> := ["registration_settings", "allowed_email_domain"]
  const MinLengthKey: seq<string> := ["registration_settings", "min_password_length"]
  const LoginSuccessKey: seq<string> := ["notification_messages", "login_success"]
  const InvalidCredentialsKey: seq<string> := ["notification_messages", "invalid_credentials"]
  const RegistrationSuccessKey: seq<string> := ["notification_messages", "registration_success"]
  const EmailVerifiedKey: seq<string> := ["notification_messages", "email_verified_success"]

  /** A path of two keys that can be written with a dot between them. */
  predicate TwoKeys(keys: seq<string>) {
    |keys| == 2 && '.' !in keys[0] && '.' !in keys[1]
  }

  lemma RegistrationRuleKeys()
    ensures TwoKeys(DomainKey) && TwoKeys(MinLengthKey)
  {
  }

  lemma LoginMessageKeys()
    ensures TwoKeys(LoginSuccessKey) && TwoKeys(InvalidCredentialsKey)
  {
  }

  lemma RegistrationMessageKey()
    ensures TwoKeys(RegistrationSuccessKey)
  {
  }

  lemma VerifiedMessageKey()
    ensures TwoKeys(EmailVerifiedKey)
  {
  }

  /** `simple_firebase_db.get_setting("<section>.<key>") or default`. */
  method ConfiguredSetting(db: SimpleFirebaseDB, keys: seq<string>, default: Value) returns (v: Value)
    requires TwoKeys(keys)
    ensures v == Configured(db.GetSystemSettings(), keys, default)
  {
    DottedPath(keys[0], keys[1]);
    assert [keys[0], keys[1]] == keys;
    var r := db.GetSetting(keys[0] + "." + keys[1]);
    v := if r.Some? && Truthy(r.value) then r.value else default;
  }

  // ---------------------------------------------------------------------
  // `load_logged_in_user` and the session.

  /** The `g.user` built from the stored user found under the session's
      username; `user["role"]` raises KeyError for a record without a role. */
  function SessionUserOf(users: seq<Entry<Record>>, username: Option<string>): (r: Outcome<Option<SessionUser>>)
    ensures username.None? ==> r == Return(None)
    ensures username.Some? && FindBy(users, "username", Str(username.value)).None? ==> r == Return(None)
    ensures r.Return? && r.value.Some? ==>
      username.Some? && r.value.value.username == username.value &&
      exists i :: 0 <= i < |users| && users[i].id == r.value.value.id &&
        Get(users[i].rec, "username") == Str(username.value) && Get(users[i].rec, "role") == r.value.value.role
    ensures r.Raise? <==> username.Some? && FindBy(users, "username", Str(username.value)).Some? &&
                          "role" !in FindBy(users, "username", Str(username.value)).value
  {
    match username
    case None => Return(None)
    case Some(name) =>
      match FindBy(users, "username", Str(name))
      case None => Return(None)
      case Some(u) =>
        if "role" !in u then Raise("KeyError")
        else Return(Some(SessionUser(u["id"].s, name, u["role"])))
  }

  /** `load_logged_in_user`: `g.user` from the session, then the settings
      for the templates. The first-time set-up is reached only when a
      stored tree lacks `system_info`, and then keeps that tree, so it
      never writes: the defaults are substituted on read. A stored
      settings value that is not a dict has no `.get` and raises
      AttributeError. */
  method LoadLoggedInUser(session: Session, db: SimpleFirebaseDB) returns (r: Outcome<Option<SessionUser>>, dynamic: Value)
    requires db.Valid()
    modifies db`settings
    ensures db.settings == old(db.settings)
    ensures SessionUserOf(db.Users(), session.username).Raise? ==> r == SessionUserOf(db.Users(), session.username)
    ensures SessionUserOf(db.Users(), session.username).Return? ==>
      (r == if db.GetSystemSettings().Obj? then SessionUserOf(db.Users(), session.username) else Raise("AttributeError"))
    ensures r.Return? ==> dynamic == db.GetSystemSettings()
  {
    r := SessionUserOf(db.Users(), session.username);
    dynamic := Null;
    if r.Raise? {
      return;
    }
    dynamic := db.GetSystemSettings();
    if Truthy(dynamic) && !dynamic.Obj? {
      r := Raise("AttributeError");
      return;
    }
    if !Truthy(dynamic) || !Truthy(GetOr(dynamic.fields, "system_info", Null)) {
      var _ := db.InitializeDefaultSettings();
      dynamic := db.GetSystemSettings();
    }
  }

  // ---------------------------------------------------------------------
  // `login` and `logout`.

  /** `login`: the session records the username only when
      `verify_password` accepts, and an unknown username and a wrong
      password get the same answer. */
  method Login(session: Session, db: SimpleFirebaseDB, username: string, password: string) returns (reply: Reply)
    modifies session
    ensures username == "" || password == "" ==>
      reply == Render("login.html", Error(CredentialsRequired)) && session.username == old(session.username)
    ensures username != "" && password != "" && VerifyPasswordSpec(db.Users(), username, password).Some? ==>
      session.username == Some(username) &&
      reply == Redirect("dashboard", Success(Configured(db.GetSystemSettings(), LoginSuccessKey, Str(LoginSucceeded))))
    ensures username != "" && password != "" && VerifyPasswordSpec(db.Users(), username, password).None? ==>
      session.username == old(session.username) &&
      reply == Render("login.html", Some(Flash(Configured(db.GetSystemSettings(), InvalidCredentialsKey,
                                                          Str(InvalidCredentials)), "error")))
  {
    if username == "" || password == "" {
      return Render("login.html", Error(CredentialsRequired));
    }
    var user := db.VerifyPassword(username, password);
    if user.Some? {
      assert user.value["username"] == Str(username);
      session.username := Some(user.value["username"].s);
      LoginMessageKeys();
      var msg := ConfiguredSetting(db, LoginSuccessKey, Str(LoginSucceeded));
      return Redirect("dashboard", Success(msg));
    }
    LoginMessageKeys();
    var msg := ConfiguredSetting(db, InvalidCredentialsKey, Str(InvalidCredentials));
    return Render("login.html", Some(Flash(msg, "error")));
  }

  method Logout(session: Session) returns (reply: Reply)
    modifies session
    ensures session.username.None?
    ensures reply == Redirect("login", Some(Flash(Str(LoggedOut), "info")))
  {
    session.username := None;
    return Redirect("login", Some(Flash(Str(LoggedOut), "info")));
  }

  /** Logging in never looks at `email_verified`: a freshly registered
      student, whose record does not even carry the field, logs in at once. */
  lemma UnverifiedStudentLogsIn(users: seq<Entry<Record>>, k: string, username: string, password: string,
                                extra: Record, now: int)
    requires CreateRejection(users, username, extra).None?
    ensures "email_verified" !in NewUserRecord(username, password, "student", extra, now)
    ensures VerifyPasswordSpec(users + [Entry(k, NewUserRecord(username, password, "student", extra, now))], username, password).Some?
  {
    assert "email_verified" !in ProfileFields;
    CreatedUserCanLogin(users, k, username, password, "student", extra, now);
  }

  // ---------------------------------------------------------------------
  // `register`.

  /** The registration form as the handler reads it, `''` for a missing field. */
  datatype RegisterForm = RegisterForm(
    username: string, password: string, confirmPassword: string,
    firstName: string, lastName: string, email: string,
    studentId: string, level: string, gender: string)

  /** The clean-up `register` applies: username and email stripped and
      lower-cased, the names stripped, the student id stripped and
      upper-cased; the passwords, level and gender are taken as given. */
  function Normalise(f: RegisterForm): (n: RegisterForm)
    ensures Trimmed(n.username) && NoUpper(n.username)
    ensures Trimmed(n.email) && NoUpper(n.email)
    ensures Trimmed(n.studentId) && NoLower(n.studentId)
    ensures Trimmed(n.firstName) && Trimmed(n.lastName)
    ensures n.password == f.password && n.confirmPassword == f.confirmPassword
    ensures n.level == f.level && n.gender == f.gender
  {
    f.(username := StripLower(f.username),
       firstName := Strip(f.firstName),
       lastName := Strip(f.lastName),
       email := StripLower(f.email),
       studentId := StripUpper(f.studentId))
  }

  /** Submitting an already clean form changes nothing. */
  lemma NormaliseIdempotent(f: RegisterForm)
    ensures Normalise(Normalise(f)) == Normalise(f)
  {
    StripCaseIdempotent(f.username);
    StripCaseIdempotent(f.email);
    StripCaseIdempotent(f.studentId);
    StripIdempotent(f.firstName);
    StripIdempotent(f.lastName);
  }

  /** `all([...])` over the eight required fields (the confirmation is not
      among them). */
  predicate AllFilled(f: RegisterForm) {
    f.username != "" && f.password != "" && f.firstName != "" && f.lastName != "" &&
    f.email != "" && f.studentId != "" && f.level != "" && f.gender != ""
  }

  /** `len(password) < min_length` for the configured minimum: an int, or
      a bool (Python compares `True` as 1); any other value raises
      TypeError. */
  function IntSetting(v: Value): Option<int> {
    match v
    case Int(i) => Some(i)
    case Bool(b) => Some(if b then 1 else 0)
    case _ => None
  }

  const AllFieldsRequired: string := "All required fields must be filled."
  const PasswordMismatch: string := "Passwords do not match."
  const GenderRequired: string := "Gender must be M (Male) or F (Female)"

  /** The registration checks in the handler's order, on the cleaned form,
      with the configured e-mail domain and minimum length (defaults
      applied): the first failure's message, or None when all pass. */
  function Validate(f: RegisterForm, domain: Value, minLength: Value): (r: Outcome<Option<string>>)
    ensures r == Return(Some(AllFieldsRequired)) <==> !AllFilled(f)
    ensures r == Return(Some(PasswordMismatch)) <==>
      AllFilled(f) && domain.Str? && EndsWith(f.email, domain.s) && f.password != f.confirmPassword
    ensures r == Return(Some(GenderRequired)) <==>
      AllFilled(f) && domain.Str? && EndsWith(f.email, domain.s) && f.password == f.confirmPassword &&
      IntSetting(minLength).Some? && |f.password| >= IntSetting(minLength).value && f.gender != "M" && f.gender != "F"
    ensures r.Raise? <==>
      AllFilled(f) && (!domain.Str? || (EndsWith(f.email, domain.s) && f.password == f.confirmPassword && IntSetting(minLength).None?))
    ensures r == Return(None) <==>
      AllFilled(f) && domain.Str? && EndsWith(f.email, domain.s) && f.password == f.confirmPassword &&
      IntSetting(minLength).Some? && |f.password| >= IntSetting(minLength).value && (f.gender == "M" || f.gender == "F")
  {
    if !AllFilled(f) then Return(Some(AllFieldsRequired))
    else if !domain.Str? then Raise("TypeError")
    else if !EndsWith(f.email, domain.s) then
      Return(Some("Email must be from the institutional domain (" + domain.s + ")"))
    else if f.password != f.confirmPassword then Return(Some(PasswordMismatch))
    else if IntSetting(minLength).None? then Raise("TypeError")
    else if |f.password| < IntSetting(minLength).value then
      Return(Some("Password must be at least " + NatToString(IntSetting(minLength).value) + " characters long."))
    else if f.gender != "M" && f.gender != "F" then Return(Some(GenderRequired))
    else Return(None)
  }

  /** The checks `register` runs against the settings tree `s`. */
  function RegisterCheck(s: Value, form: RegisterForm): Outcome<Option<string>> {
    Validate(Normalise(form), Configured(s, DomainKey, Str("@ktu.edu.gh")), Configured(s, MinLengthKey, Int(8)))
  }

  /** The default settings name the `@ktu.edu.gh` domain and a minimum of 8. */
  lemma DefaultRegistrationSettings()
    ensures Configured(DefaultSystemSettings(), DomainKey, Str("@ktu.edu.gh")) == Str("@ktu.edu.gh")
    ensures Configured(DefaultSystemSettings(), MinLengthKey, Int(8)) == Int(8)
  {
    var d := DefaultSystemSettings();
    GetPathPair(d, "registration_settings", "allowed_email_domain");
    GetPathPair(d, "registration_settings", "min_password_length");
  }

  /** A form passes only with an e-mail address in the configured domain,
      a password of at least the configured length and a gender of M or F. */
  lemma PassedRegistration(s: Value, form: RegisterForm)
    requires RegisterCheck(s, form) == Return(None)
    ensures var domain := Configured(s, DomainKey, Str("@ktu.edu.gh"));
      domain.Str? && EndsWith(Normalise(form).email, domain.s)
    ensures var minLength := IntSetting(Configured(s, MinLengthKey, Int(8)));
      minLength.Some? && |form.password| >= minLength.value
    ensures form.gender == "M" || form.gender == "F"
  {
  }

  /** With the default settings a form passes only with an e-mail address
      in `@ktu.edu.gh`, a password of at least 8 characters and a gender
      of M or F. */
  lemma DefaultRegistrationRules(form: RegisterForm)
    requires RegisterCheck(DefaultSystemSettings(), form) == Return(None)
    ensures EndsWith(Normalise(form).email, "@ktu.edu.gh") && |form.password| >= 8
    ensures form.gender == "M" || form.gender == "F"
  {
    DefaultRegistrationSettings();
    PassedRegistration(DefaultSystemSettings(), form);
  }

  /** The keyword arguments `register` passes to `create_user`. */
  function RegistrationExtra(f: RegisterForm): (extra: Record)
    ensures Get(extra, "student_id") == Str(f.studentId) && Get(extra, "email") == Str(f.email)
  {
    map[
      "first_name" := Str(f.firstName),
      "last_name" := Str(f.lastName),
      "email" := Str(f.email),
      "student_id" := Str(f.studentId),
      "level" := Str(f.level),
      "gender" := Str(f.gender),
      "email_verified" := Bool(false),
      "verification_code" := Null]
  }

  /** The checks of `register`, read against the stored settings. */
  method CheckRegistration(db: SimpleFirebaseDB, form: RegisterForm) returns (check: Outcome<Option<string>>)
    ensures check == RegisterCheck(db.GetSystemSettings(), form)
  {
    var f := Normalise(form);
    RegistrationRuleKeys();
    var domain := ConfiguredSetting(db, DomainKey, Str("@ktu.edu.gh"));
    var minLength := ConfiguredSetting(db, MinLengthKey, Int(8));
    check := Validate(f, domain, minLength);
  }

  /** `register` (POST): the checks, in order, before any write; then
      `Enrol`. */
  method Register(db: SimpleFirebaseDB, form: RegisterForm, n: int, mailed: bool, now: int) returns (r: Outcome<Reply>)
    requires db.Valid() && 100000 <= n <= 999999
    modifies db`users, db`codes
    ensures db.Valid()
    ensures RegisterCheck(old(db.GetSystemSettings()), form).Raise? ==>
      r.Raise? && db.users == old(db.users) && db.codes == old(db.codes)
    ensures RegisterCheck(old(db.GetSystemSettings()), form).Return? && RegisterCheck(old(db.GetSystemSettings()), form).value.Some? ==>
      r == Return(Render("register.html", Error(RegisterCheck(old(db.GetSystemSettings()), form).value.value))) &&
      db.users == old(db.users) && db.codes == old(db.codes)
    ensures RegisterCheck(old(db.GetSystemSettings()), form) == Return(None) ==> r.Return?
    ensures db.users != old(db.users) ==>
      RegisterCheck(old(db.GetSystemSettings()), form) == Return(None) &&
      Appended(old(db.users), db.users, NewUserRecord(Normalise(form).username, form.password, "student",
                                                       RegistrationExtra(Normalise(form)), now))
    ensures db.codes != old(db.codes) ==>
      db.users != old(db.users) &&
      Appended(old(db.codes), db.codes, NewCode(db.users[|old(db.users)|].id, VerificationCodeFor(n), "registration", now))
  {
    var check := CheckRegistration(db, form);
    if check.Raise? {
      return Raise(check.error);
    }
    if check.value.Some? {
      return Return(Render("register.html", Error(check.value.value)));
    }
    var f := Normalise(form);
    var reply, id := Enrol(db, f, RegistrationExtra(f), VerificationCodeFor(n), mailed, now);
    return Return(reply);
  }

  /** `after` is `before` with one more entry, holding `rec` under a key
      `before` did not have. */
  ghost predicate Appended<T>(before: seq<Entry<T>>, after: seq<Entry<T>>, rec: T) {
    |after| == |before| + 1 && after == before + [Entry(after[|before|].id, rec)] &&
    after[|before|].id !in Ids(before)
  }

  /** The second half of `register`: `create_user` for a student, then a
      verification code stored for the new id; the e-mail is a notifier
      call whose outcome `mailed` only picks the redirect. */
  method Enrol(db: SimpleFirebaseDB, f: RegisterForm, extra: Record, code: string, mailed: bool, now: int) returns (reply: Reply, id: Option<string>)
    requires db.Valid()
    modifies db`users, db`codes
    ensures db.Valid()
    ensures CreateRejection(old(db.Users()), f.username, extra).Some? ==>
      id.None? && db.users == old(db.users) && db.codes == old(db.codes) &&
      reply == Render("register.html", Error(RegistrationFailed +
                                             CreateRejection(old(db.Users()), f.username, extra).value))
    ensures !db.online ==>
      id.None? && db.users == old(db.users) && db.codes == old(db.codes) &&
      reply == Render("register.html", Error(RegistrationFailed + "Failed to create user"))
    ensures id.Some? <==> db.online && CreateRejection(old(db.Users()), f.username, extra).None?
    ensures id.None? ==> db.users == old(db.users) && db.codes == old(db.codes)
    ensures id.Some? ==>
      id.value !in Ids(old(db.users)) &&
      db.users == old(db.users) + [Entry(id.value, NewUserRecord(f.username, f.password, "student", extra, now))] &&
      Appended(old(db.codes), db.codes, NewCode(id.value, code, "registration", now)) &&
      reply.Redirect? && reply.endpoint == if mailed then "verify_email/" + id.value else "login"
    ensures id.Some? && mailed ==>
      reply.flash == Success(Configured(db.GetSystemSettings(), RegistrationSuccessKey,
                                        Str(RegisteredCheckEmail)))
    ensures id.Some? && !mailed ==>
      reply.flash == Some(Flash(Str(RegisteredMailFailed), "warning"))
  {
    var message;
    id, message := db.CreateUser(f.username, f.password, "student", extra, now);
    if id.None? {
      return Render("register.html", Error(RegistrationFailed + message)), id;
    }
    reply := SendVerification(db, id.value, code, mailed, now);
  }

  /** The code stored for a registered user, and the redirect that follows. */
  method SendVerification(db: SimpleFirebaseDB, id: string, code: string, mailed: bool, now: int) returns (reply: Reply)
    requires db.Valid() && db.online
    modifies db`codes
    ensures db.Valid()
    ensures Appended(old(db.codes), db.codes, NewCode(id, code, "registration", now))
    ensures reply.Redirect? && reply.endpoint == if mailed then "verify_email/" + id else "login"
    ensures mailed ==>
      reply.flash == Success(Configured(db.GetSystemSettings(), RegistrationSuccessKey, Str(RegisteredCheckEmail)))
    ensures !mailed ==> reply.flash == Some(Flash(Str(RegisteredMailFailed), "warning"))
  {
    var _ := db.StoreVerificationCode(id, code, "registration", now);
    reply := Registered(db, id, mailed);
  }

  /** The redirect after a stored registration: to the verification page
      with the configured message when the code was mailed, else to login
      with a warning. */
  method Registered(db: SimpleFirebaseDB, id: string, mailed: bool) returns (reply: Reply)
    ensures reply.Redirect? && reply.endpoint == if mailed then "verify_email/" + id else "login"
    ensures mailed ==>
      reply.flash == Success(Configured(db.GetSystemSettings(), RegistrationSuccessKey, Str(RegisteredCheckEmail)))
    ensures !mailed ==> reply.flash == Some(Flash(Str(RegisteredMailFailed), "warning"))
  {
    if mailed {
      RegistrationMessageKey();
      var msg := ConfiguredSetting(db, RegistrationSuccessKey, Str(RegisteredCheckEmail));
      reply := Redirect("verify_email/" + id, Success(msg));
    } else {
      reply := Redirect("login", Some(Flash(Str(RegisteredMailFailed), "warning")));
    }
  }

  // ---------------------------------------------------------------------
  // `verify_email`.

  /** The record `verify_email` writes back: the user as `get_user_by_id`
      returned it (with its id), marked verified at `now`. */
  function MarkedVerified(user: Record, now: int): (r: Record)
    ensures Get(r, "email_verified") == Bool(true) && Get(r, "verified_at") == Int(now)
    ensures forall f :: f != "email_verified" && f != "verified_at" ==> Get(r, f) == Get(user, f)
  {
    user["email_verified" := Bool(true)]["verified_at" := Int(now)]
  }

  /** `verify_email` (POST): the stripped code is consumed through
      `verify_code` whoever it belongs to, and the user is marked verified
      only when the code maps to the user id of the link. */
  method VerifyEmail(db: SimpleFirebaseDB, userId: string, input: string, now: int) returns (reply: Reply)
    requires db.Valid()
    modifies db`users, db`codes
    ensures db.Valid()
    ensures Strip(input) == "" ==>
      reply == Render("verify_email.html", Error(CodeRequired)) &&
      db.codes == old(db.codes) && db.users == old(db.users)
    ensures Strip(input) != "" && old(db.online) ==>
      db.codes == VerifyCodeStep(old(db.codes), Strip(input), "registration", now).1
    ensures !old(db.online) ==> db.codes == old(db.codes)
    ensures reply.Redirect? <==>
      Strip(input) != "" && db.online &&
      VerifyCodeStep(old(db.codes), Strip(input), "registration", now).0 == Some(userId) &&
      ById(old(db.Users()), userId).Some?
    ensures reply.Redirect? ==>
      db.users == Put(old(db.users), userId, MarkedVerified(ById(old(db.Users()), userId).value, now)) &&
      Get(Lookup(db.users, userId).value, "email_verified") == Bool(true) &&
      reply == Redirect("login", Success(Configured(db.GetSystemSettings(), EmailVerifiedKey,
                                                    Str(EmailVerified))))
    ensures !reply.Redirect? ==> db.users == old(db.users)
    ensures Strip(input) != "" &&
            !(db.online && VerifyCodeStep(old(db.codes), Strip(input), "registration", now).0 == Some(userId)) ==>
      reply == Render("verify_email.html", Error(InvalidCode))
  {
    var code := Strip(input);
    if code == "" {
      return Render("verify_email.html", Error(CodeRequired));
    }
    var verified := db.VerifyCode(code, "registration", now);
    if verified != Some(userId) {
      return Render("verify_email.html", Error(InvalidCode));
    }
    reply := MarkEmailVerified(db, userId, now);
  }

  /** The end of `verify_email` once the code matched the link's user:
      that user is read back and written with `email_verified` set. */
  method MarkEmailVerified(db: SimpleFirebaseDB, userId: string, now: int) returns (reply: Reply)
    requires db.Valid() && db.online
    modifies db`users
    ensures db.Valid()
    ensures reply.Redirect? <==> ById(old(db.Users()), userId).Some?
    ensures reply.Redirect? ==>
      db.users == Put(old(db.users), userId, MarkedVerified(ById(old(db.Users()), userId).value, now)) &&
      Get(Lookup(db.users, userId).value, "email_verified") == Bool(true) &&
      reply == Redirect("login", Success(Configured(db.GetSystemSettings(), EmailVerifiedKey,
                                                    Str(EmailVerified))))
    ensures !reply.Redirect? ==>
      db.users == old(db.users) && reply == Render("verify_email.html", Error(UserNotFound))
  {
    var user := db.GetUserById(userId);
    if user.None? {
      return Render("verify_email.html", Error(UserNotFound));
    }
    VerifiedMessageKey();
    var msg := ConfiguredSetting(db, EmailVerifiedKey,
                                 Str(EmailVerified));
    var ok := db.PutUser(userId, MarkedVerified(user.value, now));
    reply := if ok then Redirect("login", Success(msg))
             else Render("verify_email.html", Error(VerificationNotSaved));
  }

  // ---------------------------------------------------------------------
  // `reset_password`.

  const InvalidToken: string := "Invalid or expired reset token. Please request a new password reset."

  /** The form checks of `reset_password`, in order: the first failure's
      message, or None. Unlike registration, the minimum is a fixed 8. */
  function ResetFormError(newPassword: string, confirm: string): (r: Option<string>)
    ensures r.None? <==> newPassword != "" && newPassword == confirm && |newPassword| >= 8
    ensures r == Some(PasswordMismatch) <==> newPassword != "" && confirm != "" && newPassword != confirm
  {
    if newPassword == "" || confirm == "" then Some(ResetFieldsRequired)
    else if newPassword != confirm then Some(PasswordMismatch)
    else if |newPassword| < 8 then Some(ResetTooShort)
    else None
  }

  /** `reset_password` (POST): the token is checked first; the password is
      replaced only when the form passes, and the token is marked used
      only after the password was replaced. */
  method ResetPassword(db: SimpleFirebaseDB, token: string, newPassword: string, confirm: string, now: int)
    returns (reply: Reply)
    requires db.Valid()
    modifies db`users, db`resets
    ensures db.Valid()
    ensures var found := VerifyResetTokenSpec(old(db.Resets()), token, now);
      found.None? || found.value.0 == "" ==>
        reply == Redirect("forgot_password", Error(InvalidToken)) &&
        db.users == old(db.users) && db.resets == old(db.resets)
    ensures var found := VerifyResetTokenSpec(old(db.Resets()), token, now);
      found.Some? && found.value.0 != "" && ResetFormError(newPassword, confirm).Some? ==>
        reply == Render("reset_password.html", Error(ResetFormError(newPassword, confirm).value)) &&
        db.users == old(db.users) && db.resets == old(db.resets)
    ensures var found := VerifyResetTokenSpec(old(db.Resets()), token, now);
      found.Some? && found.value.0 != "" && ResetFormError(newPassword, confirm).None? &&
      ById(old(db.Users()), found.value.0).None? ==>
        reply == Render("reset_password.html", Error(ResetFailed + "User not found")) &&
        db.users == old(db.users) && db.resets == old(db.resets)
    ensures var found := VerifyResetTokenSpec(old(db.Resets()), token, now);
      found.Some? && found.value.0 != "" && ResetFormError(newPassword, confirm).None? &&
      ById(old(db.Users()), found.value.0).Some? ==>
        reply == Redirect("login", Success(Str(PasswordResetDone))) &&
        db.users == ResetWritten(old(db.users), found.value.0, newPassword, now) &&
        db.resets == UseReset(old(db.resets), found.value.1, now)
  {
    var found := db.VerifyResetToken(token, now);
    if found.None? || found.value.0 == "" {
      return Redirect("forgot_password", Error(InvalidToken));
    }
    var userId := found.value.0;
    var resetId := found.value.1;
    var formError := ResetFormError(newPassword, confirm);
    if formError.Some? {
      return Render("reset_password.html", Error(formError.value));
    }
    reply := ApplyReset(db, userId, resetId, newPassword, now);
  }

  /** The last steps of `reset_password` once the token and the form
      passed: reset the user's password, then mark the token used. */
  method ApplyReset(db: SimpleFirebaseDB, userId: string, resetId: string, newPassword: string, now: int)
    returns (reply: Reply)
    requires db.Valid()
    modifies db`users, db`resets
    ensures db.Valid()
    ensures ById(old(db.Users()), userId).None? ==>
      reply == Render("reset_password.html", Error(ResetFailed + "User not found")) &&
      db.users == old(db.users) && db.resets == old(db.resets)
    ensures ById(old(db.Users()), userId).Some? ==>
      reply == Redirect("login", Success(Str(PasswordResetDone))) &&
      db.users == ResetWritten(old(db.users), userId, newPassword, now) &&
      db.resets == UseReset(old(db.resets), resetId, now)
  {
    var ok, msg := db.ResetUserPassword(userId, newPassword, now);
    if !ok {
      return Render("reset_password.html", Error(ResetFailed + msg));
    }
    assert db.online && db.resets == old(db.resets);
    var _ := db.UseResetToken(resetId, now);
    return Redirect("login", Success(Str(PasswordResetDone)));
  }

  /** After a successful reset the stored hash that decides the login is
      the `password_hash` the user had, when there was one, and otherwise
      the new password's; the token no longer opens the form. */
  lemma ResetCompletes(users: seq<Entry<Record>>, resets: seq<Entry<ResetRecord>>, token: string,
                       newPassword: string, now: int, later: int)
    requires UniqueIds(users) && UniqueIds(resets)
    requires VerifyResetTokenSpec(resets, token, now).Some?
    requires ById(users, VerifyResetTokenSpec(resets, token, now).value.0).Some?
    ensures var found := VerifyResetTokenSpec(resets, token, now).value;
      var users' := ResetWritten(users, found.0, newPassword, now);
      StoredPassword(Lookup(users', found.0).value) ==
        GetOr(Lookup(users, found.0).value, "password_hash", HashPassword(newPassword))
    ensures var found := VerifyResetTokenSpec(resets, token, now).value;
      var r := VerifyResetTokenSpec(UseReset(resets, found.1, now), token, later);
      r.None? || r.value.1 != found.1
  {
    var found := VerifyResetTokenSpec(resets, token, now).value;
    UsedTokenRejected(resets, found.1, now, token, later);
  }

  // ---------------------------------------------------------------------
  // `change_password`.

  /** `change_password` (POST): the current password must check, the two
      new ones must agree; there is no length rule here, unlike
      registration and reset. */
  method ChangePassword(db: SimpleFirebaseDB, user: Option<SessionUser>, current: string, newPassword: string,
                        confirm: string, now: int) returns (reply: Reply)
    requires db.Valid()
    modifies db`users
    ensures db.Valid()
    ensures user.None? ==> reply == Redirect("login", None) && db.users == old(db.users)
    ensures user.Some? && (current == "" || newPassword == "") ==>
      reply == Render("change_password.html", Error(ChangeFieldsRequired)) && db.users == old(db.users)
    ensures user.Some? && current != "" && newPassword != "" && newPassword != confirm ==>
      reply == Render("change_password.html", Error(NewPasswordsDiffer)) && db.users == old(db.users)
    ensures reply == Redirect("profile", Success(Str(PasswordChanged))) <==>
      user.Some? && current != "" && newPassword != "" && newPassword == confirm &&
      VerifyPasswordSpec(old(db.Users()), user.value.username, current).Some?
    ensures reply.Redirect? && reply.endpoint == "profile" ==>
      db.users == PasswordWritten(old(db.users), user.value.username, newPassword, now)
    ensures db.users != old(db.users) ==> reply.Redirect? && reply.endpoint == "profile"
  {
    if user.None? {
      return Redirect("login", None);
    }
    if current == "" || newPassword == "" {
      return Render("change_password.html", Error(ChangeFieldsRequired));
    }
    if newPassword != confirm {
      return Render("change_password.html", Error(NewPasswordsDiffer));
    }
    var verified := db.VerifyPassword(user.value.username, current);
    if verified.None? {
      return Render("change_password.html", Error(CurrentPasswordWrong));
    }
    var ok, msg := db.UpdateUserPassword(user.value.username, newPassword, now);
    reply := if ok then Redirect("profile", Success(Str(PasswordChanged)))
             else Render("change_password.html", Error(ChangeFailed + msg));
  }

  /** A password shorter than 8 characters is refused by `reset_password`
      and, under the default settings, by `register`; `change_password`
      has no such rule (its success condition above names no length). */
  lemma ShortPasswordRefusedByResetAndRegister(form: RegisterForm)
    requires |form.password| < 8
    ensures ResetFormError(form.password, form.password).Some?
    ensures RegisterCheck(DefaultSystemSettings(), form) != Return(None)
  {
    if RegisterCheck(DefaultSystemSettings(), form) == Return(None) {
      DefaultRegistrationRules(form);
    }
  }

  // ---------------------------------------------------------------------
  // Role gates of the user-facing routes.

  datatype Dashboard = ToLogin | AdminView | StudentView

  /** `dashboard`: the admin view for `supaadmin` and `subadmin`, the
      student view for every other role. */
  function DashboardFor(u: Option<SessionUser>): (d: Dashboard)
    ensures d == ToLogin <==> u.None?
    ensures d == AdminView <==> u.Some? && (u.value.role == Str("supaadmin") || u.value.role == Str("subadmin"))
  {
    if u.None? then ToLogin
    else if u.value.role == Str("supaadmin") || u.value.role == Str("subadmin") then AdminView
    else StudentView
  }

  /** `g.user and g.user['role'] in ['admin', 'subadmin']`: the check of
      `view_issue`, `update_issue`, `list_users` and `statistics`. */
  predicate Staff(u: Option<SessionUser>) {
    u.Some? && (u.value.role == Str("admin") || u.value.role == Str("subadmin"))
  }

  /** `list_users` and `statistics` turn non-staff away to the dashboard. */
  function StaffPage(u: Option<SessionUser>, page: string): (r: Reply)
    ensures r.Render? <==> Staff(u)
    ensures !Staff(u) ==> r.endpoint == "dashboard" && r.flash.Some? && r.flash.value.category == "error"
  {
    if Staff(u) then Render(page, None)
    else Redirect("dashboard", Error("You do not have permission to view " +
                                     (if page == "statistics.html" then "statistics." else "users.")))
  }

  /** `view_issue`: a logged-in user sees an existing issue when staff or
      when it is their own. An issue without `student_id` raises KeyError
      for everyone: in the permission check for a non-staff user, and in
      the owner lookup after it for staff. */
  function ViewIssueReply(u: Option<SessionUser>, issue: Option<Record>): (r: Outcome<Reply>)
    ensures u.None? ==> r == Return(Redirect("login", None))
    ensures u.Some? && issue.None? ==> r == Return(Redirect("dashboard", Error(IssueNotFound)))
    ensures r == Return(Render("view_issue.html", None)) <==>
      u.Some? && issue.Some? && "student_id" in issue.value &&
      (Staff(u) || issue.value["student_id"] == Str(u.value.id))
    ensures r.Raise? <==> u.Some? && issue.Some? && "student_id" !in issue.value
  {
    if u.None? then Return(Redirect("login", None))
    else if issue.None? then Return(Redirect("dashboard", Error(IssueNotFound)))
    else if "student_id" !in issue.value then Raise("KeyError")
    else if !Staff(u) && issue.value["student_id"] != Str(u.value.id) then
      Return(Redirect("dashboard", Error(NoIssueAccess)))
    else Return(Render("view_issue.html", None))
  }

  method ViewIssue(db: SimpleFirebaseDB, u: Option<SessionUser>, issueId: string) returns (r: Outcome<Reply>)
    ensures r == ViewIssueReply(u, if u.None? then None else ById(db.Issues(), issueId))
  {
    if u.None? {
      return Return(Redirect("login", None));
    }
    var issue := db.GetIssueById(issueId);
    r := ViewIssueReply(u, issue);
  }

  /** `update_issue`: staff only; the status and response go through
      `update_issue_status`, and the reply returns to the issue page. */
  method UpdateIssue(db: SimpleFirebaseDB, u: Option<SessionUser>, issueId: string, status: string, response: string,
                     now: int) returns (reply: Reply)
    requires db.Valid()
    modifies db`issues
    ensures db.Valid()
    ensures !Staff(u) ==>
      reply == Redirect("dashboard", Error(NoIssueUpdate)) && db.issues == old(db.issues)
    ensures Staff(u) && ById(old(db.Issues()), issueId).Some? ==>
      reply == Redirect("view_issue", Success(Str(IssueSaved))) &&
      db.issues == Put(old(db.issues), issueId,
                       IssueUpdated(ById(old(db.Issues()), issueId).value, Str(status), Str(response), now))
    ensures Staff(u) && ById(old(db.Issues()), issueId).None? ==>
      reply == Redirect("view_issue", Error(UpdateFailed + "Failed to update issue")) &&
      db.issues == old(db.issues)
  {
    if !Staff(u) {
      return Redirect("dashboard", Error(NoIssueUpdate));
    }
    var ok, msg := db.UpdateIssueStatus(issueId, Str(status), Str(response), now);
    reply := if ok then Redirect("view_issue", Success(Str(IssueSaved)))
             else Redirect("view_issue", Error(UpdateFailed + msg));
  }

  /** The dashboard and the issue pages disagree on who is staff: a
      `supaadmin` gets the admin dashboard listing every issue, yet may
      not open or update another student's issue. */
  lemma SupaadminSeesIssuesButCannotOpenThem(u: SessionUser, issue: Record)
    requires u.role == Str("supaadmin") && Get(issue, "student_id") != Str(u.id) && "student_id" in issue
    ensures DashboardFor(Some(u)) == AdminView
    ensures !Staff(Some(u))
    ensures ViewIssueReply(Some(u), Some(issue)) ==
      Return(Redirect("dashboard", Error(NoIssueAccess)))
  {
  }

  /** Conversely a user with the legacy role `admin` gets the student
      dashboard but may open and update any issue. */
  lemma LegacyAdminGetsStudentDashboard(u: SessionUser, issue: Record)
    requires u.role == Str("admin") && "student_id" in issue
    ensures DashboardFor(Some(u)) == StudentView
    ensures ViewIssueReply(Some(u), Some(issue)) == Return(Render("view_issue.html", None))
  {
  }
}
