/** `SimpleFirebaseDB` (firebase_simple.py): the portal's data layer over
    the REST interface of a Firebase realtime database. The remote store is
    held in the object's fields, one ordered collection per node
    (`users`, `verification_codes`, `password_resets`, `issues`) and the
    `system_settings` tree. A store that cannot be reached answers every
    request with None, which the `online` flag models. */
module FirebaseSimple {
  import opened Json
  import opened Strings
  import opened Store
  import opened Settings

  /** Verification codes expire 15 minutes after they are stored. */
  const CodeLifetime: int := 15 * 60
  /** Reset tokens expire one hour after they are created. */
  const ResetLifetime: int := 60 * 60

  /** A `verification_codes` record. */
  datatype CodeRecord = CodeRecord(
    userId: string, code: string, purpose: string,
    createdAt: int, used: bool, expiresAt: int, usedAt: Option<int>)

  /** A `password_resets` record. */
  datatype ResetRecord = ResetRecord(
    userId: string, token: string, expiresAt: int, createdAt: int,
    used: bool, usedAt: Option<int>)

  // ---------------------------------------------------------------------
  // Users and passwords.

  /** `user_data.get(field) == v` for some user. */
  predicate Taken(users: seq<Entry<Record>>, field: string, v: Value) {
    exists i :: 0 <= i < |users| && Get(users[i].rec, field) == v
  }

  /** The hash `verify_password` checks: `password_hash` when present,
      otherwise `password`, otherwise `''`. */
  function StoredPassword(u: Record): Value {
    GetOr(u, "password_hash", GetOr(u, "password", Str("")))
  }

  /** `verify_password(username, password)`: the first user with that
      username, provided the password checks against its stored hash. */
  function VerifyPasswordSpec(users: seq<Entry<Record>>, username: string, password: string): (r: Option<Record>)
    ensures r.Some? ==> r == FindBy(users, "username", Str(username))
    ensures r.Some? ==> Get(r.value, "username") == Str(username)
    ensures r.Some? ==> CheckPasswordHash(StoredPassword(r.value), password)
    ensures (FindBy(users, "username", Str(username)).Some? &&
             CheckPasswordHash(StoredPassword(FindBy(users, "username", Str(username)).value), password)) ==> r.Some?
  {
    match FindBy(users, "username", Str(username))
    case None => None
    case Some(u) => if CheckPasswordHash(StoredPassword(u), password) then Some(u) else None
  }

  /** A stored `password_hash` decides alone: when it does not check, a
      `password` field beside it is never consulted. */
  lemma HashShadowsPassword(u: Record, password: string)
    requires "password_hash" in u
    ensures CheckPasswordHash(StoredPassword(u), password) <==> CheckPasswordHash(u["password_hash"], password)
  {
  }

  /** The profile fields `create_user` copies from its keyword arguments,
      each defaulting to `''`. */
  const ProfileFields: seq<string> := [
    "first_name", "last_name", "email", "phone", "date_of_birth", "gender",
    "student_id", "level", "department", "program",
    "address", "emergency_contact_name", "emergency_contact_phone"]

  /** The profile part of a new user: every profile field taken from the
      keyword arguments, `''` when absent. */
  function ProfileOf(extra: Record): (m: Record)
    ensures forall f :: f in m <==> f in ProfileFields
    ensures forall f :: f in m ==> m[f] == GetOr(extra, f, Str(""))
  {
    map f | f in ProfileFields :: GetOr(extra, f, Str(""))
  }

  /** The record `create_user` stores: the profile, then the account and
      system fields. */
  function NewUserRecord(username: string, password: string, role: string, extra: Record, now: int): (u: Record)
    ensures Get(u, "username") == Str(username) && Get(u, "role") == Str(role)
    ensures "password_hash" in u && "password" !in u
    ensures forall q :: CheckPasswordHash(StoredPassword(u), q) <==> q == password
    ensures Get(u, "created_at") == Int(now)
    ensures Get(u, "profile_complete") == Bool(true)
    ensures Get(u, "terms_accepted") == GetOr(extra, "terms_accepted", Bool(false))
  {
    assert "password" !in ProfileFields;
    ProfileOf(extra)
      ["username" := Str(username)]
      ["password_hash" := HashPassword(password)]
      ["role" := Str(role)]
      ["created_at" := Int(now)]
      ["terms_accepted" := GetOr(extra, "terms_accepted", Bool(false))]
      ["profile_complete" := Bool(true)]
  }

  /** The student id and email a new user is stored with are the keyword
      arguments, or `''`: the values the uniqueness checks compare. */
  lemma NewUserIdentity(username: string, password: string, role: string, extra: Record, now: int)
    ensures Get(NewUserRecord(username, password, role, extra, now), "student_id") == GetOr(extra, "student_id", Str(""))
    ensures Get(NewUserRecord(username, password, role, extra, now), "email") == GetOr(extra, "email", Str(""))
  {
    ProfileField(username, password, role, extra, now, "student_id");
    ProfileField(username, password, role, extra, now, "email");
  }

  lemma ProfileField(username: string, password: string, role: string, extra: Record, now: int, f: string)
    requires f in ProfileFields
    requires f !in {"username", "password_hash", "role", "created_at", "terms_accepted", "profile_complete"}
    ensures Get(NewUserRecord(username, password, role, extra, now), f) == GetOr(extra, f, Str(""))
  {
  }

  /** Why `create_user` refuses, checked in this order: a taken username,
      then a taken non-empty student id, then a taken non-empty email. */
  function CreateRejection(users: seq<Entry<Record>>, username: string, extra: Record): Option<string> {
    var sid := Get(extra, "student_id");
    var email := Get(extra, "email");
    if FindBy(users, "username", Str(username)).Some? then Some("User already exists")
    else if Truthy(sid) && FindBy(users, "student_id", sid).Some? then Some("Student ID already exists")
    else if Truthy(email) && FindBy(users, "email", email).Some? then Some("Email address already exists")
    else None
  }

  /** Each refusal holds exactly when its check is the first to fail. */
  lemma CreateRejectionMeaning(users: seq<Entry<Record>>, username: string, extra: Record)
    ensures var r := CreateRejection(users, username, extra);
      (r == Some("User already exists") <==> Taken(users, "username", Str(username))) &&
      (r == Some("Student ID already exists") <==>
        !Taken(users, "username", Str(username)) &&
        Truthy(Get(extra, "student_id")) && Taken(users, "student_id", Get(extra, "student_id"))) &&
      (r == Some("Email address already exists") <==>
        !Taken(users, "username", Str(username)) &&
        !(Truthy(Get(extra, "student_id")) && Taken(users, "student_id", Get(extra, "student_id"))) &&
        Truthy(Get(extra, "email")) && Taken(users, "email", Get(extra, "email"))) &&
      (r.None? ==> !Taken(users, "username", Str(username)))
  {
  }

  /** A user created under a free username logs in with the password it
      was created with. */
  lemma CreatedUserCanLogin(users: seq<Entry<Record>>, k: string, username: string, password: string,
                            role: string, extra: Record, now: int)
    requires CreateRejection(users, username, extra).None?
    ensures VerifyPasswordSpec(users + [Entry(k, NewUserRecord(username, password, role, extra, now))], username, password).Some?
  {
    var rec := NewUserRecord(username, password, role, extra, now);
    assert FindBy(users, "username", Str(username)).None?;
    FindByAppend(users, "username", Str(username), Entry(k, rec));
    assert StoredPassword(WithId(rec, k)) == StoredPassword(rec);
  }

  /** The password transform of `update_user_password` as written: the new
      hash goes to `password`, so a `password_hash` already stored keeps
      deciding. */
  function PasswordAsWritten(u: Record, password: string, now: int): (r: Record)
    ensures StoredPassword(r) == GetOr(u, "password_hash", HashPassword(password))
    ensures forall f :: f != "password" && f != "updated_at" ==> Get(r, f) == Get(u, f)
  {
    u["password" := HashPassword(password)]["updated_at" := Int(now)]
  }

  /** The transform of `reset_user_password` as written: the same, and the
      reset time besides. */
  function PasswordResetAsWritten(u: Record, password: string, now: int): (r: Record)
    ensures StoredPassword(r) == GetOr(u, "password_hash", HashPassword(password))
    ensures Get(r, "username") == Get(u, "username") && Get(r, "password_reset_at") == Int(now)
  {
    PasswordAsWritten(u, password, now)["password_reset_at" := Int(now)]
  }

  /** The password transform as intended: the new hash goes to the field
      `verify_password` reads first. */
  function PasswordCorrected(u: Record, password: string, now: int): (r: Record)
    ensures forall q :: CheckPasswordHash(StoredPassword(r), q) <==> q == password
    ensures forall f :: f != "password_hash" && f != "updated_at" ==> Get(r, f) == Get(u, f)
  {
    u["password_hash" := HashPassword(password)]["updated_at" := Int(now)]
  }

  /** Rewriting the first user with a username by a record that keeps the
      username leaves the rewritten record the one a search by username
      finds. */
  lemma RewriteFound(users: seq<Entry<Record>>, i: nat, username: string, u: Record)
    requires UniqueIds(users) && FirstUserIndex(users, username) == Some(i)
    requires Get(u, "username") == Str(username)
    ensures FindBy(Put(users, users[i].id, u), "username", Str(username)) == Some(WithId(u, users[i].id))
  {
    FirstUserIndexMeaning(users, username);
    PutAt(users, i, u);
    FindByUpdate(users, "username", Str(username), i, Entry(users[i].id, u));
    assert FindIndex(users, "username", Str(username)) == Some(i);
  }

  /** The users after `update_user_password` as written, for the first user
      with the name when there is one. */
  function PasswordWritten(users: seq<Entry<Record>>, username: string, password: string, now: int)
    : seq<Entry<Record>>
  {
    match FirstUserIndex(users, username)
    case None => users
    case Some(i) => Put(users, users[i].id, PasswordAsWritten(WithId(users[i].rec, users[i].id), password, now))
  }

  /** The users after `update_user_password` with the corrected transform. */
  function CorrectedWritten(users: seq<Entry<Record>>, username: string, password: string, now: int)
    : seq<Entry<Record>>
  {
    match FirstUserIndex(users, username)
    case None => users
    case Some(i) => Put(users, users[i].id, PasswordCorrected(WithId(users[i].rec, users[i].id), password, now))
  }

  /** The users after `reset_user_password` as written, for a user found
      by id. */
  function ResetWritten(users: seq<Entry<Record>>, id: string, password: string, now: int): seq<Entry<Record>>
    requires ById(users, id).Some?
  {
    Put(users, id, PasswordResetAsWritten(ById(users, id).value, password, now))
  }

  /** The first user with `username` is found by id, and the update
      rewrites exactly that entry, keeping ids unique. */
  lemma WrittenAt(users: seq<Entry<Record>>, i: nat, username: string, password: string, now: int)
    requires UniqueIds(users) && FirstUserIndex(users, username) == Some(i)
    ensures ById(users, users[i].id) == Some(WithId(users[i].rec, users[i].id))
    ensures PasswordWritten(users, username, password, now) ==
      Put(users, users[i].id, PasswordAsWritten(WithId(users[i].rec, users[i].id), password, now))
    ensures UniqueIds(PasswordWritten(users, username, password, now))
  {
    FirstUserIndexMeaning(users, username);
    LookupAt(users, i);
    assert "username" in users[i].rec;
  }

  /** As written, after `update_user_password` the user's login is decided
      by the `password_hash` stored before when there is one, and by the
      new password only when there is none. */
  lemma PasswordWrittenLogin(users: seq<Entry<Record>>, i: nat, username: string, password: string, now: int, q: string)
    requires UniqueIds(users) && FirstUserIndex(users, username) == Some(i)
    ensures VerifyPasswordSpec(PasswordWritten(users, username, password, now), username, q).Some? <==>
      CheckPasswordHash(GetOr(users[i].rec, "password_hash", HashPassword(password)), q)
  {
    FirstUserIndexMeaning(users, username);
    var id := users[i].id;
    var u := PasswordAsWritten(WithId(users[i].rec, id), password, now);
    AsWrittenRecord(users[i].rec, id, password, now);
    RewriteFound(users, i, username, u);
  }

  /** The record `update_user_password` stores keeps the username, and the
      hash that decides its login is the old `password_hash` when there is
      one. */
  lemma AsWrittenRecord(rec: Record, id: string, password: string, now: int)
    ensures var u := PasswordAsWritten(WithId(rec, id), password, now);
      Get(u, "username") == Get(rec, "username") &&
      StoredPassword(WithId(u, id)) == GetOr(rec, "password_hash", HashPassword(password))
  {
    var u := PasswordAsWritten(WithId(rec, id), password, now);
    assert StoredPassword(WithId(u, id)) == StoredPassword(u);
  }

  /** `PasswordWrittenLogin` for every password at once. */
  lemma PasswordWrittenLogins(users: seq<Entry<Record>>, i: nat, username: string, password: string, now: int)
    requires UniqueIds(users) && FirstUserIndex(users, username) == Some(i)
    ensures forall q :: VerifyPasswordSpec(PasswordWritten(users, username, password, now), username, q).Some? <==>
      CheckPasswordHash(GetOr(users[i].rec, "password_hash", HashPassword(password)), q)
  {
    forall q
      ensures VerifyPasswordSpec(PasswordWritten(users, username, password, now), username, q).Some? <==>
        CheckPasswordHash(GetOr(users[i].rec, "password_hash", HashPassword(password)), q)
    {
      PasswordWrittenLogin(users, i, username, password, now, q);
    }
  }

  /** As written, a user stored by `create_user` with password `before` and
      then given `after` by `update_user_password` still logs in with
      `before`, and not with `after`. */
  lemma UpdateKeepsCreatedPassword(users: seq<Entry<Record>>, i: nat, username: string, before: string, after: string,
                                   role: string, extra: Record, created: int, now: int)
    requires UniqueIds(users) && FirstUserIndex(users, username) == Some(i)
    requires users[i].rec == NewUserRecord(username, before, role, extra, created) && before != after
    ensures VerifyPasswordSpec(PasswordWritten(users, username, after, now), username, before).Some?
    ensures VerifyPasswordSpec(PasswordWritten(users, username, after, now), username, after).None?
  {
    var rec := users[i].rec;
    assert GetOr(rec, "password_hash", HashPassword(after)) == StoredPassword(rec);
    PasswordWrittenLogin(users, i, username, after, now, before);
    PasswordWrittenLogin(users, i, username, after, now, after);
  }

  /** As written, after `reset_user_password` of the first user with a
      username, the login is decided by the `password_hash` stored before
      when there is one, and by the new password only when there is none. */
  lemma ResetWrittenLogin(users: seq<Entry<Record>>, i: nat, username: string, password: string, now: int, q: string)
    requires UniqueIds(users) && FirstUserIndex(users, username) == Some(i)
    ensures ById(users, users[i].id).Some?
    ensures VerifyPasswordSpec(ResetWritten(users, users[i].id, password, now), username, q).Some? <==>
      CheckPasswordHash(GetOr(users[i].rec, "password_hash", HashPassword(password)), q)
  {
    FirstUserIndexMeaning(users, username);
    LookupAt(users, i);
    assert "username" in users[i].rec;
    var id := users[i].id;
    var u := PasswordResetAsWritten(WithId(users[i].rec, id), password, now);
    ResetAsWrittenRecord(users[i].rec, id, password, now);
    RewriteFound(users, i, username, u);
  }

  /** The record `reset_user_password` stores keeps the username, and the
      hash that decides its login is the old `password_hash` when there is
      one. */
  lemma ResetAsWrittenRecord(rec: Record, id: string, password: string, now: int)
    ensures var u := PasswordResetAsWritten(WithId(rec, id), password, now);
      Get(u, "username") == Get(rec, "username") &&
      StoredPassword(WithId(u, id)) == GetOr(rec, "password_hash", HashPassword(password))
  {
    var u := PasswordResetAsWritten(WithId(rec, id), password, now);
    assert StoredPassword(WithId(u, id)) == StoredPassword(u);
  }

  /** As written, a user stored by `create_user` with password `before` and
      then reset to `after` by `reset_user_password` still logs in with
      `before`, and not with `after`. */
  lemma ResetKeepsCreatedPassword(users: seq<Entry<Record>>, i: nat, username: string, before: string, after: string,
                                  role: string, extra: Record, created: int, now: int)
    requires UniqueIds(users) && FirstUserIndex(users, username) == Some(i)
    requires users[i].rec == NewUserRecord(username, before, role, extra, created) && before != after
    ensures ById(users, users[i].id).Some?
    ensures VerifyPasswordSpec(ResetWritten(users, users[i].id, after, now), username, before).Some?
    ensures VerifyPasswordSpec(ResetWritten(users, users[i].id, after, now), username, after).None?
  {
    var rec := users[i].rec;
    assert GetOr(rec, "password_hash", HashPassword(after)) == StoredPassword(rec);
    ResetWrittenLogin(users, i, username, after, now, before);
    ResetWrittenLogin(users, i, username, after, now, after);
  }

  /** The counterexample: one user created with password `before`, then
      updated to `after`. The old password logged in before the update and
      still does; the new one does not. */
  lemma AsWrittenKeepsOldPassword(k: string, username: string, before: string, after: string,
                                  role: string, extra: Record, created: int, now: int)
    requires before != after
    ensures var users := [Entry(k, NewUserRecord(username, before, role, extra, created))];
      VerifyPasswordSpec(users, username, before).Some? &&
      VerifyPasswordSpec(PasswordWritten(users, username, after, now), username, before).Some? &&
      VerifyPasswordSpec(PasswordWritten(users, username, after, now), username, after).None?
  {
    var rec := NewUserRecord(username, before, role, extra, created);
    var users := [Entry(k, rec)];
    CreatedUserCanLogin([], k, username, before, role, extra, created);
    assert [] + [Entry(k, rec)] == users;
    assert FirstUserIndex(users, username) == Some(0);
    UpdateKeepsCreatedPassword(users, 0, username, before, after, role, extra, created, now);
  }

  /** With the corrected transform, the first user with `username` is found
      by id, ids stay unique, and the new password logs in. */
  lemma CorrectedAtLogsIn(users: seq<Entry<Record>>, i: nat, username: string, password: string, now: int)
    requires UniqueIds(users) && FirstUserIndex(users, username) == Some(i)
    ensures ById(users, users[i].id) == Some(WithId(users[i].rec, users[i].id))
    ensures var after := CorrectedWritten(users, username, password, now);
      UniqueIds(after) && VerifyPasswordSpec(after, username, password).Some?
  {
    FirstUserIndexMeaning(users, username);
    LookupAt(users, i);
    assert "username" in users[i].rec;
    var u := PasswordCorrected(WithId(users[i].rec, users[i].id), password, now);
    RewriteFound(users, i, username, u);
  }

  /** The index of the first user with `username`. */
  function FirstUserIndex(users: seq<Entry<Record>>, username: string): (r: Option<nat>)
    ensures r.Some? ==> r.value < |users|
  {
    FindIndex(users, "username", Str(username))
  }

  /** The index found holds the username and no earlier user does; there
      is none exactly when `get_user_by_username` finds no user. */
  lemma FirstUserIndexMeaning(users: seq<Entry<Record>>, username: string)
    ensures var r := FirstUserIndex(users, username);
      (r.Some? ==> Get(users[r.value].rec, "username") == Str(username)) &&
      (r.Some? ==> forall j :: 0 <= j < r.value ==> Get(users[j].rec, "username") != Str(username)) &&
      (r.None? <==> FindBy(users, "username", Str(username)).None?)
  {
  }

  // ---------------------------------------------------------------------
  // Verification codes.

  /** `str(random.randint(100000, 999999))` for the drawn number `n`:
      six decimal digits that read back as `n`. */
  function VerificationCodeFor(n: int): (c: string)
    requires 100000 <= n <= 999999
    ensures |c| == 6 && forall i :: 0 <= i < 6 ==> IsDigit(c[i])
    ensures ParseNat(c) == n
  {
    NatToStringLength(n, 5);
    ParseNatToString(n);
    NatToString(n)
  }

  /** The record `store_verification_code` stores. */
  function NewCode(userId: string, code: string, purpose: string, now: int): CodeRecord {
    CodeRecord(userId, code, purpose, now, false, now + CodeLifetime, None)
  }

  /** A code record `verify_code` accepts: same code and purpose, unused,
      and `now` before its expiry. */
  predicate CodeUsable(c: CodeRecord, code: string, purpose: string, now: int) {
    c.code == code && c.purpose == purpose && !c.used && now < c.expiresAt
  }

  function UsableFor(code: string, purpose: string, now: int): Entry<CodeRecord> -> bool {
    (e: Entry<CodeRecord>) => CodeUsable(e.rec, code, purpose, now)
  }

  /** Index of the first usable code record. */
  function CodeIndex(cs: seq<Entry<CodeRecord>>, code: string, purpose: string, now: int): (r: Option<nat>)
    ensures r.Some? ==> r.value < |cs| && CodeUsable(cs[r.value].rec, code, purpose, now)
    ensures r.Some? ==> forall j :: 0 <= j < r.value ==> !CodeUsable(cs[j].rec, code, purpose, now)
    ensures r.None? ==> forall j :: 0 <= j < |cs| ==> !CodeUsable(cs[j].rec, code, purpose, now)
  {
    if cs == [] then None
    else if CodeUsable(cs[0].rec, code, purpose, now) then Some(0)
    else match CodeIndex(cs[1..], code, purpose, now)
      case None => None
      case Some(k) => Some(k + 1)
  }

  /** The code record marked as used at `now`. */
  function Consume(c: CodeRecord, now: int): (r: CodeRecord)
    ensures r.used && r.usedAt == Some(now)
    ensures r.(used := c.used, usedAt := c.usedAt) == c
  {
    c.(used := true, usedAt := Some(now))
  }

  /** What `verify_code` returns and the codes it leaves: the first usable
      record is consumed and its user id returned; with none, nothing
      changes. */
  function VerifyCodeStep(cs: seq<Entry<CodeRecord>>, code: string, purpose: string, now: int)
    : (Option<string>, seq<Entry<CodeRecord>>)
  {
    match CodeIndex(cs, code, purpose, now)
    case None => (None, cs)
    case Some(k) => (Some(cs[k].rec.userId), cs[k := Entry(cs[k].id, Consume(cs[k].rec, now))])
  }

  /** `verify_code` fails exactly when no record is usable, and then
      changes nothing; otherwise it consumes the first usable record and
      returns that record's user id. */
  lemma VerifyCodeStepMeaning(cs: seq<Entry<CodeRecord>>, code: string, purpose: string, now: int)
    ensures var r := VerifyCodeStep(cs, code, purpose, now);
      (r.0.None? <==> forall i :: 0 <= i < |cs| ==> !CodeUsable(cs[i].rec, code, purpose, now)) &&
      (r.0.None? ==> r.1 == cs) &&
      (r.0.Some? ==>
        exists i :: 0 <= i < |cs| && CodeUsable(cs[i].rec, code, purpose, now) &&
          (forall j :: 0 <= j < i ==> !CodeUsable(cs[j].rec, code, purpose, now)) &&
          r.0.value == cs[i].rec.userId && r.1 == cs[i := Entry(cs[i].id, Consume(cs[i].rec, now))])
  {
  }

  /** A code is single use: when only one record was usable, a second
      `verify_code` with the same code and purpose, now or later, fails. */
  lemma VerifyCodeSingleUse(cs: seq<Entry<CodeRecord>>, code: string, purpose: string, now: int, later: int)
    requires now <= later
    requires forall i, j :: (0 <= i < |cs| && 0 <= j < |cs| &&
      CodeUsable(cs[i].rec, code, purpose, now) && CodeUsable(cs[j].rec, code, purpose, now)) ==> i == j
    ensures VerifyCodeStep(VerifyCodeStep(cs, code, purpose, now).1, code, purpose, later).0.None?
  {
    var r := VerifyCodeStep(cs, code, purpose, now);
    VerifyCodeStepMeaning(cs, code, purpose, now);
    if r.0.Some? {
      var i :| 0 <= i < |cs| && CodeUsable(cs[i].rec, code, purpose, now) &&
        r.1 == cs[i := Entry(cs[i].id, Consume(cs[i].rec, now))];
      forall j | 0 <= j < |r.1| ensures !CodeUsable(r.1[j].rec, code, purpose, later) {
        assert j != i ==> r.1[j] == cs[j];
      }
    }
  }

  /** A freshly stored code, with no other usable record for it, is
      accepted exactly until it expires 15 minutes later. */
  lemma FreshCodeAcceptedUntilExpiry(cs: seq<Entry<CodeRecord>>, k: string, userId: string,
                                     code: string, purpose: string, now: int, t: int)
    requires forall i :: 0 <= i < |cs| ==> !CodeUsable(cs[i].rec, code, purpose, t)
    ensures VerifyCodeStep(cs + [Entry(k, NewCode(userId, code, purpose, now))], code, purpose, t).0 ==
      if t < now + CodeLifetime then Some(userId) else None
  {
    var e := Entry(k, NewCode(userId, code, purpose, now));
    var xs := cs + [e];
    if t < now + CodeLifetime {
      var r := VerifyCodeStep(xs, code, purpose, t);
      VerifyCodeStepMeaning(xs, code, purpose, t);
      assert CodeUsable(xs[|cs|].rec, code, purpose, t);
      var i :| 0 <= i < |xs| && CodeUsable(xs[i].rec, code, purpose, t) &&
        (forall j :: 0 <= j < i ==> !CodeUsable(xs[j].rec, code, purpose, t)) &&
        r.0.value == xs[i].rec.userId;
      assert i == |cs|;
    } else {
      assert forall i :: 0 <= i < |xs| ==> !CodeUsable(xs[i].rec, code, purpose, t);
      VerifyCodeStepMeaning(xs, code, purpose, t);
    }
  }

  // ---------------------------------------------------------------------
  // Password-reset tokens.

  /** The 62 characters of `string.ascii_letters + string.digits`. */
  predicate IsAlphaNum(c: char) {
    'a' <= c <= 'z' || 'A' <= c <= 'Z' || '0' <= c <= '9'
  }

  /** The character at position `k` of `ascii_letters + digits`. */
  function TokenChar(k: nat): (c: char)
    requires k < 62
    ensures IsAlphaNum(c)
  {
    if k < 26 then ('a' as int + k) as char
    else if k < 52 then ('A' as int + k - 26) as char
    else ('0' as int + k - 52) as char
  }

  /** `generate_reset_token` for the drawn alphabet positions `picks`. */
  function ResetTokenFrom(picks: seq<nat>): (t: string)
    requires forall i :: 0 <= i < |picks| ==> picks[i] < 62
    ensures |t| == |picks| && forall i :: 0 <= i < |t| ==> IsAlphaNum(t[i])
  {
    seq(|picks|, i requires 0 <= i < |picks| => TokenChar(picks[i]))
  }

  /** Different draws give different tokens. */
  lemma ResetTokenInjective(a: seq<nat>, b: seq<nat>)
    requires forall i :: 0 <= i < |a| ==> a[i] < 62
    requires forall i :: 0 <= i < |b| ==> b[i] < 62
    requires ResetTokenFrom(a) == ResetTokenFrom(b)
    ensures a == b
  {
    assert |a| == |b|;
    forall i | 0 <= i < |a| ensures a[i] == b[i] {
      assert TokenChar(a[i]) == ResetTokenFrom(a)[i];
      assert TokenChar(b[i]) == ResetTokenFrom(b)[i];
    }
  }

  /** The record `create_password_reset_token` stores. */
  function NewReset(userId: string, token: string, now: int): ResetRecord {
    ResetRecord(userId, token, now + ResetLifetime, now, false, None)
  }

  /** A reset record `verify_reset_token` accepts. */
  predicate TokenValid(r: ResetRecord, token: string, now: int) {
    r.token == token && !r.used && now < r.expiresAt
  }

  function ValidFor(token: string, now: int): Entry<ResetRecord> -> bool {
    (e: Entry<ResetRecord>) => TokenValid(e.rec, token, now)
  }

  /** Index of the first valid reset record for `token`. */
  function ResetIndex(rs: seq<Entry<ResetRecord>>, token: string, now: int): (r: Option<nat>)
    ensures r.Some? ==> r.value < |rs| && TokenValid(rs[r.value].rec, token, now)
    ensures r.Some? ==> forall j :: 0 <= j < r.value ==> !TokenValid(rs[j].rec, token, now)
    ensures r.None? ==> forall j :: 0 <= j < |rs| ==> !TokenValid(rs[j].rec, token, now)
  {
    if rs == [] then None
    else if TokenValid(rs[0].rec, token, now) then Some(0)
    else match ResetIndex(rs[1..], token, now)
      case None => None
      case Some(k) => Some(k + 1)
  }

  /** `verify_reset_token(token)`: the user id and reset id of the first
      valid record for the token. */
  function VerifyResetTokenSpec(rs: seq<Entry<ResetRecord>>, token: string, now: int): (r: Option<(string, string)>)
    ensures r.None? <==> forall i :: 0 <= i < |rs| ==> !TokenValid(rs[i].rec, token, now)
    ensures r.Some? ==>
      exists i :: 0 <= i < |rs| && TokenValid(rs[i].rec, token, now) && r.value == (rs[i].rec.userId, rs[i].id)
  {
    match ResetIndex(rs, token, now)
    case None => None
    case Some(k) => Some((rs[k].rec.userId, rs[k].id))
  }

  /** The reset record marked as used at `now`. */
  function MarkUsed(r: ResetRecord, now: int): (m: ResetRecord)
    ensures m.used && m.usedAt == Some(now)
    ensures m.(used := r.used, usedAt := r.usedAt) == r
  {
    r.(used := true, usedAt := Some(now))
  }

  /** What `use_reset_token(id)` leaves: the record under `id` marked
      used, or the records as they were when there is none. */
  function UseReset(rs: seq<Entry<ResetRecord>>, id: string, now: int): seq<Entry<ResetRecord>> {
    match Lookup(rs, id)
    case None => rs
    case Some(x) => Put(rs, id, MarkUsed(x, now))
  }

  /** Once `use_reset_token(id)` has marked record `id`, no token is ever
      again accepted through that record. */
  lemma UsedTokenRejected(rs: seq<Entry<ResetRecord>>, id: string, now: int, token: string, t: int)
    requires UniqueIds(rs)
    ensures var rs' := UseReset(rs, id, now);
      VerifyResetTokenSpec(rs', token, t).None? || VerifyResetTokenSpec(rs', token, t).value.1 != id
  {
    var rs' := UseReset(rs, id, now);
    if id in Ids(rs) {
      forall i | 0 <= i < |rs'| && rs'[i].id == id ensures !TokenValid(rs'[i].rec, token, t) {
        LookupAt(rs', i);
      }
    } else {
      forall i | 0 <= i < |rs'| ensures rs'[i].id != id {
        assert rs'[i].id in Ids(rs');
      }
    }
  }

  /** A fresh token, with no other valid record for it, is accepted exactly
      until it expires an hour later. */
  lemma FreshTokenValidUntilExpiry(rs: seq<Entry<ResetRecord>>, k: string, userId: string,
                                   token: string, now: int, t: int)
    requires forall i :: 0 <= i < |rs| ==> !TokenValid(rs[i].rec, token, t)
    ensures VerifyResetTokenSpec(rs + [Entry(k, NewReset(userId, token, now))], token, t) ==
      if t < now + ResetLifetime then Some((userId, k)) else None
  {
    var xs := rs + [Entry(k, NewReset(userId, token, now))];
    if t >= now + ResetLifetime {
      assert forall i :: 0 <= i < |xs| ==> !TokenValid(xs[i].rec, token, t);
    } else {
      var r := VerifyResetTokenSpec(xs, token, t);
      assert TokenValid(xs[|rs|].rec, token, t);
      var i :| 0 <= i < |xs| && TokenValid(xs[i].rec, token, t) && r.value == (xs[i].rec.userId, xs[i].id);
      assert i == |rs|;
    }
  }

  /** The user `find_user_for_reset` accepts: the contact matches the
      email or the phone, as `method` says, and the student id matches. */
  predicate ResetCandidate(u: Record, contact: string, studentId: string, how: string) {
    ((how == "email" && Get(u, "email") == Str(contact)) ||
     (how == "phone" && Get(u, "phone") == Str(contact))) &&
    Get(u, "student_id") == Str(studentId)
  }

  function CandidateFor(contact: string, studentId: string, how: string): Entry<Record> -> bool {
    (e: Entry<Record>) => ResetCandidate(e.rec, contact, studentId, how)
  }

  /** Index of the first candidate for a reset. */
  function CandidateIndex(users: seq<Entry<Record>>, contact: string, studentId: string, how: string): (r: Option<nat>)
    ensures r.Some? ==> r.value < |users| && ResetCandidate(users[r.value].rec, contact, studentId, how)
    ensures r.Some? ==> forall j :: 0 <= j < r.value ==> !ResetCandidate(users[j].rec, contact, studentId, how)
    ensures r.None? ==> forall j :: 0 <= j < |users| ==> !ResetCandidate(users[j].rec, contact, studentId, how)
  {
    if users == [] then None
    else if ResetCandidate(users[0].rec, contact, studentId, how) then Some(0)
    else match CandidateIndex(users[1..], contact, studentId, how)
      case None => None
      case Some(k) => Some(k + 1)
  }

  /** `find_user_for_reset`: the first candidate, with its id. */
  function FindForReset(users: seq<Entry<Record>>, contact: string, studentId: string, how: string): (r: Option<Record>)
    ensures r.None? <==> forall i :: 0 <= i < |users| ==> !ResetCandidate(users[i].rec, contact, studentId, how)
    ensures r.Some? ==> how in {"email", "phone"} && Get(r.value, "student_id") == Str(studentId)
    ensures r.Some? ==> Get(r.value, how) == Str(contact)
  {
    FoundAt(users, CandidateIndex(users, contact, studentId, how))
  }

  // ---------------------------------------------------------------------
  // Issues.

  function UsernameKey(u: Record): Value {
    GetOr(u, "username", Str(""))
  }

  function CreatedAtKey(u: Record): Value {
    GetOr(u, "created_at", Str(""))
  }

  /** `issue.get(field) == v`. */
  function RecordFieldIs(field: string, v: Value): Record -> bool {
    (r: Record) => Get(r, field) == v
  }

  /** `get_user_by_id` / `get_issue_by_id`: the record under `id` with its
      id, unless it is missing or empty. */
  function ById(xs: seq<Entry<Record>>, id: string): (r: Option<Record>)
    ensures r.Some? <==> Lookup(xs, id).Some? && Lookup(xs, id).value != map[]
    ensures r.Some? ==> r.value == WithId(Lookup(xs, id).value, id)
  {
    match Lookup(xs, id)
    case None => None
    case Some(rec) => if rec != map[] then Some(WithId(rec, id)) else None
  }

  /** The record `create_issue` stores. */
  function NewIssue(studentId: Value, subject: string, category: string, message: string, now: int): (r: Record)
    ensures Get(r, "status") == Str("pending") && Get(r, "response") == Str("")
    ensures Get(r, "student_id") == studentId && Get(r, "created_at") == Int(now)
  {
    map[
      "student_id" := studentId,
      "subject" := Str(subject),
      "category" := Str(category),
      "message" := Str(message),
      "status" := Str("pending"),
      "response" := Str(""),
      "created_at" := Int(now)]
  }

  /** `current_issue.update(update_data)` in `update_issue_status`: the
      status and time always, the response only when it is truthy; every
      other field stays. */
  function IssueUpdated(rec: Record, status: Value, response: Value, now: int): (r: Record)
    ensures Get(r, "status") == status && Get(r, "updated_at") == Int(now)
    ensures Get(r, "response") == if Truthy(response) then response else Get(rec, "response")
    ensures forall f :: f != "status" && f != "updated_at" && f != "response" ==> Get(r, f) == Get(rec, f)
  {
    var r := rec["status" := status]["updated_at" := Int(now)];
    if Truthy(response) then r["response" := response] else r
  }

  /** The counts of `get_user_count_by_role` and `get_issue_count_by_status`
      add up to the number of records counted. */
  lemma CountsAddUp(rs: seq<Record>, field: string)
    ensures MapSum(CountBy(FieldValues(rs, field, Str("unknown")))) == |rs|
  {
    CountByTotal(FieldValues(rs, field, Str("unknown")));
  }

  // ---------------------------------------------------------------------
  // Settings.

  /** A successful `update_setting(path, v)` makes `get_setting(path)`
      answer `v`. */
  lemma UpdateThenGetSetting(s: Value, path: string, v: Value)
    requires SetPath(s, Split(path, '.'), v).Some?
    ensures var w := SetPath(s, Split(path, '.'), v).value;
      Truthy(w) && GetPath(w, Split(path, '.')) == Some(v)
  {
    GetAfterSet(s, Split(path, '.'), v);
    var keys := Split(path, '.');
    assert keys[0] in SetPath(s, keys, v).value.fields;
  }

  class SimpleFirebaseDB {
    /** Whether requests reach the store. */
    var online: bool
    var users: seq<Entry<Record>>
    var codes: seq<Entry<CodeRecord>>
    var resets: seq<Entry<ResetRecord>>
    var issues: seq<Entry<Record>>
    /** The `system_settings` node; Null when nothing is stored. */
    var settings: Value
    /** The tree `get_default_system_settings` builds. */
    const defaults: Value

    ghost predicate Valid()
      reads this`users, this`codes, this`resets, this`issues
    {
      UniqueIds(users) && UniqueIds(codes) && UniqueIds(resets) && UniqueIds(issues) &&
      defaults.Obj? && Truthy(defaults) && Truthy(GetOr(defaults.fields, "system_info", Null))
    }

    constructor (online: bool)
      ensures Valid() && this.online == online
      ensures users == [] && codes == [] && resets == [] && issues == [] && settings == Null
      ensures defaults == DefaultSystemSettings()
    {
      defaults := DefaultSystemSettings();
      DefaultsAreTruthy();
      this.online := online;
      users := [];
      codes := [];
      resets := [];
      issues := [];
      settings := Null;
    }

    /** The users a GET of `users` returns: none when the store is unreachable. */
    function Users(): seq<Entry<Record>>
      reads this`online, this`users
    {
      if online then users else []
    }

    function Resets(): seq<Entry<ResetRecord>>
      reads this`online, this`resets
    {
      if online then resets else []
    }

    function Issues(): seq<Entry<Record>>
      reads this`online, this`issues
    {
      if online then issues else []
    }

    // -------------------------------------------------------------------
    // Users.

    /** The scan shared by `get_user_by_username`, `get_user_by_student_id`
        and `get_user_by_email`. */
    method FindUser(field: string, v: Value) returns (r: Option<Record>)
      ensures r == FindBy(Users(), field, v)
    {
      var xs := Users();
      var i := Scan(xs, FieldIs(field, v));
      ScanFindsIndex(xs, field, v);
      r := FoundAt(xs, i);
    }

    method GetUserByUsername(username: string) returns (r: Option<Record>)
      ensures r == FindBy(Users(), "username", Str(username))
    {
      r := FindUser("username", Str(username));
    }

    method GetUserByStudentId(studentId: Value) returns (r: Option<Record>)
      ensures r == FindBy(Users(), "student_id", studentId)
    {
      r := FindUser("student_id", studentId);
    }

    method GetUserByEmail(email: Value) returns (r: Option<Record>)
      ensures r == FindBy(Users(), "email", email)
    {
      r := FindUser("email", email);
    }

    method GetUserById(id: string) returns (r: Option<Record>)
      ensures r == ById(Users(), id)
    {
      r := ById(Users(), id);
    }

    method VerifyPassword(username: string, password: string) returns (r: Option<Record>)
      ensures r == VerifyPasswordSpec(Users(), username, password)
    {
      r := GetUserByUsername(username);
      if r.Some? && !CheckPasswordHash(StoredPassword(r.value), password) {
        r := None;
      }
    }

    /** `get_all_users`: every user with its id, by username ascending. */
    method GetAllUsers() returns (r: seq<Record>)
      ensures r == SortBy(WithIds(Users()), UsernameKey, false)
      ensures multiset(r) == multiset(WithIds(Users())) && SortedBy(r, UsernameKey, false)
    {
      var list := CollectWithIds(Users());
      r := SortBy(list, UsernameKey, false);
    }

    /** The lookups `create_user` makes before writing: the first of a taken
        username, student id or email, in that order. */
    method CreateChecks(username: string, extra: Record) returns (rejection: Option<string>)
      ensures rejection == CreateRejection(Users(), username, extra)
      ensures !online ==> rejection.None?
    {
      var byName := GetUserByUsername(username);
      if byName.Some? {
        return Some("User already exists");
      }
      var sid := Get(extra, "student_id");
      if Truthy(sid) {
        var bySid := GetUserByStudentId(sid);
        if bySid.Some? {
          return Some("Student ID already exists");
        }
      }
      var email := Get(extra, "email");
      if Truthy(email) {
        var byEmail := GetUserByEmail(email);
        if byEmail.Some? {
          return Some("Email address already exists");
        }
      }
      return None;
    }

    /** `create_user`: the first rejection, in order, writes nothing;
        otherwise the new record is appended under a fresh key. */
    method CreateUser(username: string, password: string, role: string, extra: Record, now: int)
      returns (id: Option<string>, msg: string)
      requires Valid()
      modifies this`users
      ensures Valid()
      ensures CreateRejection(old(Users()), username, extra).Some? ==>
        id.None? && msg == CreateRejection(old(Users()), username, extra).value && users == old(users)
      ensures !online ==> id.None? && msg == "Failed to create user" && users == old(users)
      ensures CreateRejection(old(Users()), username, extra).None? && online ==>
        id.Some? && id.value !in Ids(old(users)) && msg == "User created successfully" &&
        users == old(users) + [Entry(id.value, NewUserRecord(username, password, role, extra, now))]
    {
      var rejection := CreateChecks(username, extra);
      if rejection.Some? {
        return None, rejection.value;
      }
      if !online {
        return None, "Failed to create user";
      }
      var k := FreshKey(users);
      UniqueIdsAppend(users, Entry(k, NewUserRecord(username, password, role, extra, now)));
      users := users + [Entry(k, NewUserRecord(username, password, role, extra, now))];
      return Some(k), "User created successfully";
    }

    /** `update_user_password`: the first user with the name is re-read
        by id and written back with the new hash in `password`. */
    method UpdateUserPassword(username: string, password: string, now: int) returns (ok: bool, msg: string)
      requires Valid()
      modifies this`users
      ensures Valid()
      ensures ok <==> FirstUserIndex(old(Users()), username).Some?
      ensures !ok ==> msg == "User not found" && users == old(users)
      ensures ok ==> msg == "Password updated successfully" && users == PasswordWritten(old(users), username, password, now)
      ensures ok ==> forall q :: VerifyPasswordSpec(Users(), username, q).Some? <==>
        CheckPasswordHash(GetOr(old(users)[FirstUserIndex(old(users), username).value].rec, "password_hash",
                                HashPassword(password)), q)
    {
      var xs := Users();
      var found := Scan(xs, FieldIs("username", Str(username)));
      ScanFindsIndex(xs, "username", Str(username));
      if found.None? {
        assert FirstUserIndex(xs, username).None?;
        return false, "User not found";
      }
      PasswordWrittenLogins(xs, found.value, username, password, now);
      ok, msg := RewritePassword(found.value, username, password, now);
    }

    /** The write of `update_user_password` once the user is found at `i`:
        the record `get_user_by_id` returns, with the new hash, replaces it. */
    method RewritePassword(i: nat, username: string, password: string, now: int) returns (ok: bool, msg: string)
      requires Valid() && online && FirstUserIndex(users, username) == Some(i)
      modifies this`users
      ensures Valid()
      ensures ok && msg == "Password updated successfully"
      ensures users == PasswordWritten(old(users), username, password, now)
    {
      var id := users[i].id;
      WrittenAt(users, i, username, password, now);
      var current := GetUserById(id);
      if current.None? {
        assert false;
        return false, "Failed to update password";
      }
      users := Put(users, id, PasswordAsWritten(current.value, password, now));
      return true, "Password updated successfully";
    }

    /** `reset_user_password`: the user stored under the id is written back
        with the new hash in `password` and the reset time. */
    method ResetUserPassword(userId: string, password: string, now: int) returns (ok: bool, msg: string)
      requires Valid()
      modifies this`users
      ensures Valid()
      ensures ById(old(Users()), userId).None? ==> !ok && msg == "User not found" && users == old(users)
      ensures ById(old(Users()), userId).Some? ==>
        ok && msg == "Password reset successfully" && users == ResetWritten(old(users), userId, password, now)
      ensures ok ==>
        StoredPassword(Lookup(users, userId).value) == GetOr(Lookup(old(users), userId).value, "password_hash", HashPassword(password))
    {
      var user := GetUserById(userId);
      if user.None? {
        return false, "User not found";
      }
      users := Put(users, userId, PasswordResetAsWritten(user.value, password, now));
      return true, "Password reset successfully";
    }

    /** `_make_request('users/<id>', 'PUT', rec)`: the whole record is
        written under the id; the answer is the record, truthy, when the
        store is reached. */
    method PutUser(id: string, rec: Record) returns (ok: bool)
      requires Valid()
      modifies this`users
      ensures Valid()
      ensures ok == online
      ensures users == if online then Put(old(users), id, rec) else old(users)
    {
      if !online {
        return false;
      }
      users := Put(users, id, rec);
      return true;
    }

    /** `find_user_for_reset`. */
    method FindUserForReset(contact: string, studentId: string, how: string) returns (r: Option<Record>)
      ensures r == FindForReset(Users(), contact, studentId, how)
    {
      var xs := Users();
      var i := Scan(xs, CandidateFor(contact, studentId, how));
      FirstIndexIs(xs, CandidateFor(contact, studentId, how), CandidateIndex(xs, contact, studentId, how));
      r := FoundAt(xs, i);
    }

    /** `get_user_count_by_role`: users per role, a missing role counted
        as `'unknown'`; the counts add up to the number of users. */
    method GetUserCountByRole() returns (m: map<Value, nat>)
      ensures m == CountBy(FieldValues(SortBy(WithIds(Users()), UsernameKey, false), "role", Str("unknown")))
      ensures MapSum(m) == |Users()|
    {
      var all := GetAllUsers();
      m := Tally(FieldValues(all, "role", Str("unknown")));
      CountsAddUp(all, "role");
    }

    // -------------------------------------------------------------------
    // Verification codes.

    /** `store_verification_code`: a fresh, unused record expiring 15
        minutes from `now`. */
    method StoreVerificationCode(userId: string, code: string, purpose: string, now: int)
      returns (r: Option<string>)
      requires Valid()
      modifies this`codes
      ensures Valid()
      ensures !online ==> r.None? && codes == old(codes)
      ensures online ==> (r.Some? && r.value !in Ids(old(codes)) &&
                          codes == old(codes) + [Entry(r.value, NewCode(userId, code, purpose, now))])
    {
      if !online {
        return None;
      }
      var k := FreshKey(codes);
      UniqueIdsAppend(codes, Entry(k, NewCode(userId, code, purpose, now)));
      codes := codes + [Entry(k, NewCode(userId, code, purpose, now))];
      return Some(k);
    }

    /** `verify_code`: consume the first usable record. */
    method VerifyCode(code: string, purpose: string, now: int) returns (userId: Option<string>)
      requires Valid()
      modifies this`codes
      ensures Valid()
      ensures online ==> (userId, codes) == VerifyCodeStep(old(codes), code, purpose, now)
      ensures !online ==> userId.None? && codes == old(codes)
    {
      if !online {
        return None;
      }
      var found := Scan(codes, UsableFor(code, purpose, now));
      FirstIndexIs(codes, UsableFor(code, purpose, now), CodeIndex(codes, code, purpose, now));
      if found.None? {
        return None;
      }
      var i := found.value;
      var rec := codes[i].rec;
      PutAt(codes, i, Consume(rec, now));
      codes := Put(codes, codes[i].id, Consume(rec, now));
      return Some(rec.userId);
    }

    // -------------------------------------------------------------------
    // Reset tokens.

    /** `create_password_reset_token`: a 32-character token drawn from the
        alphabet, stored unused with a one-hour expiry. */
    method CreatePasswordResetToken(userId: string, picks: seq<nat>, now: int) returns (token: Option<string>)
      requires |picks| == 32 && forall i :: 0 <= i < |picks| ==> picks[i] < 62
      requires Valid()
      modifies this`resets
      ensures Valid()
      ensures !online ==> token.None? && resets == old(resets)
      ensures online ==> (token == Some(ResetTokenFrom(picks)) && |token.value| == 32 &&
                          exists k :: k !in Ids(old(resets)) && resets == old(resets) + [Entry(k, NewReset(userId, token.value, now))])
    {
      var t := ResetTokenFrom(picks);
      if !online {
        return None;
      }
      var k := FreshKey(resets);
      UniqueIdsAppend(resets, Entry(k, NewReset(userId, t, now)));
      resets := resets + [Entry(k, NewReset(userId, t, now))];
      return Some(t);
    }

    /** `verify_reset_token`: reads only. */
    method VerifyResetToken(token: string, now: int) returns (r: Option<(string, string)>)
      ensures r == VerifyResetTokenSpec(Resets(), token, now)
    {
      var xs := Resets();
      var found := Scan(xs, ValidFor(token, now));
      FirstIndexIs(xs, ValidFor(token, now), ResetIndex(xs, token, now));
      if found.None? {
        return None;
      }
      return Some((xs[found.value].rec.userId, xs[found.value].id));
    }

    /** `use_reset_token`: mark the record used; False when it is missing. */
    method UseResetToken(resetId: string, now: int) returns (ok: bool)
      requires Valid()
      modifies this`resets
      ensures Valid()
      ensures ok <==> online && resetId in Ids(old(resets))
      ensures resets == if online then UseReset(old(resets), resetId, now) else old(resets)
    {
      if !online {
        return false;
      }
      var rec := Lookup(resets, resetId);
      if rec.None? {
        return false;
      }
      resets := Put(resets, resetId, MarkUsed(rec.value, now));
      return true;
    }

    // -------------------------------------------------------------------
    // Issues.

    /** `get_all_issues`: every issue with its id, newest first. */
    method GetAllIssues() returns (r: seq<Record>)
      ensures r == SortBy(WithIds(Issues()), CreatedAtKey, true)
    {
      var list := CollectWithIds(Issues());
      r := SortBy(list, CreatedAtKey, true);
    }

    /** `get_issues_by_student`: exactly the student's issues, newest first. */
    method GetIssuesByStudent(studentId: Value) returns (r: seq<Record>)
      ensures r == Filter(SortBy(WithIds(Issues()), CreatedAtKey, true), RecordFieldIs("student_id", studentId))
      ensures SortedBy(r, CreatedAtKey, true)
      ensures forall x :: (multiset(r)[x] ==
                           if Get(x, "student_id") == studentId then multiset(WithIds(Issues()))[x] else 0)
    {
      var all := GetAllIssues();
      r := Filter(all, RecordFieldIs("student_id", studentId));
      FilterSorted(all, RecordFieldIs("student_id", studentId), CreatedAtKey, true);
      FilterMeaning(all, RecordFieldIs("student_id", studentId));
    }

    /** `get_issues_by_status`: exactly the issues with that status, newest first. */
    method GetIssuesByStatus(status: Value) returns (r: seq<Record>)
      ensures r == Filter(SortBy(WithIds(Issues()), CreatedAtKey, true), RecordFieldIs("status", status))
      ensures SortedBy(r, CreatedAtKey, true)
      ensures forall x :: (multiset(r)[x] ==
                           if Get(x, "status") == status then multiset(WithIds(Issues()))[x] else 0)
    {
      var all := GetAllIssues();
      r := Filter(all, RecordFieldIs("status", status));
      FilterSorted(all, RecordFieldIs("status", status), CreatedAtKey, true);
      FilterMeaning(all, RecordFieldIs("status", status));
    }

    method GetIssueById(id: string) returns (r: Option<Record>)
      ensures r == ById(Issues(), id)
    {
      r := ById(Issues(), id);
    }

    /** `create_issue`: a pending issue with an empty response under a fresh key. */
    method CreateIssue(studentId: Value, subject: string, category: string, message: string, now: int)
      returns (id: Option<string>, msg: string)
      requires Valid()
      modifies this`issues
      ensures Valid()
      ensures !online ==> id.None? && msg == "Failed to create issue" && issues == old(issues)
      ensures online ==> (id.Some? && id.value !in Ids(old(issues)) && msg == "Issue created successfully" &&
                          issues == old(issues) + [Entry(id.value, NewIssue(studentId, subject, category, message, now))])
    {
      if !online {
        return None, "Failed to create issue";
      }
      var k := FreshKey(issues);
      UniqueIdsAppend(issues, Entry(k, NewIssue(studentId, subject, category, message, now)));
      issues := issues + [Entry(k, NewIssue(studentId, subject, category, message, now))];
      return Some(k), "Issue created successfully";
    }

    /** `update_issue_status`: the stored issue (with its id) merged with
        the update; nothing happens to a missing issue. */
    method UpdateIssueStatus(id: string, status: Value, response: Value, now: int) returns (ok: bool, msg: string)
      requires Valid()
      modifies this`issues
      ensures Valid()
      ensures ById(old(Issues()), id).None? ==> !ok && msg == "Failed to update issue" && issues == old(issues)
      ensures ById(old(Issues()), id).Some? ==>
        (ok && msg == "Issue updated successfully" &&
         issues == Put(old(issues), id, IssueUpdated(ById(old(Issues()), id).value, status, response, now)))
      ensures forall j :: j != id ==> Lookup(issues, j) == Lookup(old(issues), j)
    {
      var current := GetIssueById(id);
      if current.None? {
        return false, "Failed to update issue";
      }
      PutFrame(issues, id, IssueUpdated(current.value, status, response, now));
      issues := Put(issues, id, IssueUpdated(current.value, status, response, now));
      return true, "Issue updated successfully";
    }

    /** `get_issue_count_by_status`: issues per status, a missing status
        counted as `'unknown'`; the counts add up to the number of issues. */
    method GetIssueCountByStatus() returns (m: map<Value, nat>)
      ensures m == CountBy(FieldValues(SortBy(WithIds(Issues()), CreatedAtKey, true), "status", Str("unknown")))
      ensures MapSum(m) == |Issues()|
    {
      var all := GetAllIssues();
      m := Tally(FieldValues(all, "status", Str("unknown")));
      CountsAddUp(all, "status");
    }

    // -------------------------------------------------------------------
    // Settings.

    /** `get_system_settings`: the stored tree, or the defaults when the
        store holds nothing (or cannot be reached). */
    function GetSystemSettings(): Value
      reads this`online, this`settings
    {
      if online && Truthy(settings) then settings else defaults
    }

    /** `get_setting(path)`: walk the dotted path down the settings. */
    method GetSetting(path: string) returns (r: Option<Value>)
      ensures r == GetPath(GetSystemSettings(), Split(path, '.'))
    {
      var root := GetSystemSettings();
      var keys := Split(path, '.');
      var current := root;
      var i := 0;
      while i < |keys|
        invariant i <= |keys|
        invariant GetPath(root, keys[..i]) == Some(current)
      {
        GetPathSnoc(root, keys[..i], keys[i]);
        assert keys[..i + 1] == keys[..i] + [keys[i]];
        var next := Child(current, keys[i]);
        if next.None? {
          GetPathAppend(root, keys[..i + 1], keys[i + 1..]);
          assert keys[..i + 1] + keys[i + 1..] == keys;
          return None;
        }
        current := next.value;
        i := i + 1;
      }
      assert keys[..i] == keys;
      return Some(current);
    }

    /** `update_system_settings`: a PUT of the whole tree; a PUT of null
        deletes the node and answers null, which reads as failure. */
    method UpdateSystemSettings(data: Value) returns (ok: bool)
      modifies this`settings
      ensures ok <==> online && data != Null
      ensures settings == if online then data else old(settings)
    {
      if !online {
        return false;
      }
      settings := data;
      return data != Null;
    }

    /** Store `SetPath(GetSystemSettings(), path, v)`; the source's TypeError
        when a node on the way is not a dict is `Raise`. */
    method SetSettingsPath(path: seq<string>, v: Value) returns (r: Outcome<bool>)
      requires |path| >= 1
      modifies this`settings
      ensures SetPath(old(GetSystemSettings()), path, v).None? ==> r.Raise? && settings == old(settings)
      ensures SetPath(old(GetSystemSettings()), path, v).Some? ==>
        (r == Return(online) &&
         settings == if online then SetPath(old(GetSystemSettings()), path, v).value else old(settings))
    {
      var w := SetPath(GetSystemSettings(), path, v);
      if w.None? {
        return Raise("TypeError");
      }
      var ok := UpdateSystemSettings(w.value);
      return Return(ok);
    }

    /** `update_setting(path, value)`; once it succeeds, `get_setting(path)`
        answers `value`. */
    method UpdateSetting(path: string, value: Value) returns (r: Outcome<bool>)
      modifies this`settings
      ensures SetPath(old(GetSystemSettings()), Split(path, '.'), value).None? ==> r.Raise? && settings == old(settings)
      ensures SetPath(old(GetSystemSettings()), Split(path, '.'), value).Some? ==>
        (r == Return(online) &&
         settings == if online then SetPath(old(GetSystemSettings()), Split(path, '.'), value).value else old(settings))
      ensures r == Return(true) ==> GetPath(GetSystemSettings(), Split(path, '.')) == Some(value)
    {
      var s := GetSystemSettings();
      r := SetSettingsPath(Split(path, '.'), value);
      if r == Return(true) {
        UpdateThenGetSetting(s, path, value);
      }
    }

    /** `add_category(key, name, description)`. */
    method AddCategory(key: string, name: string, description: string) returns (r: Outcome<bool>)
      modifies this`settings
      ensures SetPath(old(GetSystemSettings()), ["categories", key], Described(name, description)).None? ==>
        r.Raise? && settings == old(settings)
      ensures SetPath(old(GetSystemSettings()), ["categories", key], Described(name, description)).Some? ==>
        (r == Return(online) &&
         settings == if online then SetPath(old(GetSystemSettings()), ["categories", key], Described(name, description)).value
                     else old(settings))
      ensures r == Return(true) ==>
        GetPath(GetSystemSettings(), ["categories", key]) == Some(Described(name, description)) &&
        forall q :: Diverge(["categories", key], q) ==> GetPath(GetSystemSettings(), q) == GetPath(old(GetSystemSettings()), q)
    {
      var s := GetSystemSettings();
      r := SetSettingsPath(["categories", key], Described(name, description));
      if r == Return(true) {
        AddedEntry(s, "categories", key, Described(name, description));
      }
    }

    /** `add_index_prefix(prefix, description)`. */
    method AddIndexPrefix(prefix: string, description: Value) returns (r: Outcome<bool>)
      modifies this`settings
      ensures SetPath(old(GetSystemSettings()), ["index_prefixes", prefix], description).None? ==>
        r.Raise? && settings == old(settings)
      ensures SetPath(old(GetSystemSettings()), ["index_prefixes", prefix], description).Some? ==>
        (r == Return(online) &&
         settings == if online then SetPath(old(GetSystemSettings()), ["index_prefixes", prefix], description).value
                     else old(settings))
      ensures r == Return(true) ==>
        GetPath(GetSystemSettings(), ["index_prefixes", prefix]) == Some(description) &&
        forall q :: Diverge(["index_prefixes", prefix], q) ==> GetPath(GetSystemSettings(), q) == GetPath(old(GetSystemSettings()), q)
    {
      var s := GetSystemSettings();
      r := SetSettingsPath(["index_prefixes", prefix], description);
      if r == Return(true) {
        AddedEntry(s, "index_prefixes", prefix, description);
      }
    }

    /** `del tree[group][key]` under the guard `group in tree and key in
        tree[group]`, then store the tree: False, with nothing written, when
        the guard is false, and Raise, with nothing written, where Python
        raises TypeError. */
    method RemoveEntry(group: string, key: string) returns (r: Outcome<bool>)
      modifies this`settings
      ensures RemoveChild(old(GetSystemSettings()), group, key).Raise? ==> r.Raise? && settings == old(settings)
      ensures RemoveChild(old(GetSystemSettings()), group, key) == Return(None) ==>
        r == Return(false) && settings == old(settings)
      ensures var w := RemoveChild(old(GetSystemSettings()), group, key);
        w.Return? && w.value.Some? ==>
          r == Return(online) && settings == if online then w.value.value else old(settings)
    {
      var w := RemoveChild(GetSystemSettings(), group, key);
      if w.Raise? {
        return Raise(w.error);
      }
      if w.value.None? {
        return Return(false);
      }
      var ok := UpdateSystemSettings(w.value.value);
      return Return(ok);
    }

    /** `remove_category(key)`. */
    method RemoveCategory(key: string) returns (r: Outcome<bool>)
      modifies this`settings
      ensures RemoveChild(old(GetSystemSettings()), "categories", key).Raise? ==> r.Raise? && settings == old(settings)
      ensures RemoveChild(old(GetSystemSettings()), "categories", key) == Return(None) ==>
        r == Return(false) && settings == old(settings)
      ensures var w := RemoveChild(old(GetSystemSettings()), "categories", key);
        w.Return? && w.value.Some? ==>
          r == Return(online) && settings == if online then w.value.value else old(settings)
    {
      r := RemoveEntry("categories", key);
    }

    /** `remove_index_prefix(prefix)`. */
    method RemoveIndexPrefix(prefix: string) returns (r: Outcome<bool>)
      modifies this`settings
      ensures RemoveChild(old(GetSystemSettings()), "index_prefixes", prefix).Raise? ==> r.Raise? && settings == old(settings)
      ensures RemoveChild(old(GetSystemSettings()), "index_prefixes", prefix) == Return(None) ==>
        r == Return(false) && settings == old(settings)
      ensures var w := RemoveChild(old(GetSystemSettings()), "index_prefixes", prefix);
        w.Return? && w.value.Some? ==>
          r == Return(online) && settings == if online then w.value.value else old(settings)
    {
      r := RemoveEntry("index_prefixes", prefix);
    }

    /** `initialize_default_settings`: store the defaults when nothing is
        stored; a stored tree is kept. */
    method InitializeDefaultSettings() returns (ok: bool)
      requires Valid()
      modifies this`settings
      ensures ok == online
      ensures settings == if online && !Truthy(old(settings)) then defaults else old(settings)
      ensures GetSystemSettings() == old(GetSystemSettings())
    {
      if online && Truthy(settings) {
        return true;
      }
      ok := UpdateSystemSettings(defaults);
    }
  }

  /** Adding `tree[group][key] = v` makes it readable and leaves every
      other path as it was. */
  lemma AddedEntry(s: Value, group: string, key: string, v: Value)
    requires SetPath(s, [group, key], v).Some?
    ensures var w := SetPath(s, [group, key], v).value;
      Truthy(w) && GetPath(w, [group, key]) == Some(v) &&
      forall q :: Diverge([group, key], q) ==> GetPath(w, q) == GetPath(s, q)
  {
    GetAfterSet(s, [group, key], v);
    forall q | Diverge([group, key], q) ensures GetPath(SetPath(s, [group, key], v).value, q) == GetPath(s, q) {
      SetPathElsewhere(s, [group, key], v, q);
    }
  }
}
