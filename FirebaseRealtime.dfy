/** `FirebaseRealtimeDatabase` (firebase_realtime_database.py): user and
    issue management over a pyrebase handle. The handle is either missing
    (the database could not be connected) or holds the `users` and
    `issues` nodes, each an ordered collection of records under generated
    ids. */
module FirebaseRealtime {
  import opened Json
  import opened Store
  import opened FirebaseSimple

  /** The two nodes the class reads and writes. */
  datatype Handle = Handle(users: seq<Entry<Record>>, issues: seq<Entry<Record>>)

  const NotConnected: string := "Database not connected"

  /** The record `create_user` sets: username, hashed password, role and
      creation time, nothing else. */
  function NewAccount(username: string, password: string, role: string, now: int): (u: Record)
    ensures u.Keys == {"username", "password", "role", "created_at"}
    ensures Get(u, "username") == Str(username) && Get(u, "role") == Str(role) && Get(u, "created_at") == Int(now)
    ensures forall q :: CheckPasswordHash(u["password"], q) <==> q == password
  {
    map[
      "username" := Str(username),
      "password" := HashPassword(password),
      "role" := Str(role),
      "created_at" := Int(now)]
  }

  /** `verify_password`: the first user with the username, provided the
      password checks against its `password` field. That field is read
      with `user['password']` outside any `try`, so a matched record
      without it raises KeyError. */
  function VerifySpec(users: seq<Entry<Record>>, username: string, password: string): (r: Outcome<Option<Record>>)
    ensures r.Raise? <==>
      FindBy(users, "username", Str(username)).Some? && "password" !in FindBy(users, "username", Str(username)).value
    ensures r.Return? && r.value.Some? ==>
      r.value == FindBy(users, "username", Str(username)) && CheckPasswordHash(r.value.value["password"], password)
    ensures (FindBy(users, "username", Str(username)).Some? &&
             "password" in FindBy(users, "username", Str(username)).value &&
             CheckPasswordHash(FindBy(users, "username", Str(username)).value["password"], password)) ==>
      r.Return? && r.value.Some?
  {
    match FindBy(users, "username", Str(username))
    case None => Return(None)
    case Some(u) =>
      if "password" !in u then Raise("KeyError")
      else if CheckPasswordHash(u["password"], password) then Return(Some(u))
      else Return(None)
  }

  /** A pyrebase `update` (a PATCH of `node/id`): the fields are merged into
      the record under `id`, and a missing record is created from them. */
  function Patch(xs: seq<Entry<Record>>, id: string, fields: Record): (r: seq<Entry<Record>>)
    ensures Lookup(r, id) == Some(if id in Ids(xs) then Lookup(xs, id).value + fields else fields)
    ensures forall j :: j != id ==> Lookup(r, j) == Lookup(xs, j)
    ensures Ids(r) == Ids(xs) + {id}
    ensures UniqueIds(xs) ==> UniqueIds(r)
  {
    var base := if id in Ids(xs) then Lookup(xs, id).value else map[];
    assert base + fields == (if id in Ids(xs) then Lookup(xs, id).value + fields else fields);
    PutFrame(xs, id, base + fields);
    Put(xs, id, base + fields)
  }

  /** The fields `update_user_password` patches. */
  function PasswordFields(password: string, now: int): (f: Record)
    ensures f.Keys == {"password", "updated_at"}
    ensures forall q :: CheckPasswordHash(f["password"], q) <==> q == password
  {
    map["password" := HashPassword(password), "updated_at" := Int(now)]
  }

  /** The fields `update_issue_status` patches: the status and time, and
      the response only when it is truthy. */
  function StatusFields(status: Value, response: Value, now: int): (f: Record)
    ensures f.Keys == {"status", "updated_at"} + (if Truthy(response) then {"response"} else {})
    ensures Get(f, "status") == status && Get(f, "updated_at") == Int(now)
    ensures Truthy(response) ==> Get(f, "response") == response
  {
    var f := map["status" := status, "updated_at" := Int(now)];
    if Truthy(response) then f["response" := response] else f
  }

  /** On an issue that exists, the patch of `update_issue_status` makes
      the same record as the partial update of `SimpleFirebaseDB`. */
  lemma StatusPatchAgrees(rec: Record, status: Value, response: Value, now: int)
    ensures rec + StatusFields(status, response, now) == IssueUpdated(rec, status, response, now)
  {
    var l := rec + StatusFields(status, response, now);
    var r := IssueUpdated(rec, status, response, now);
    assert l.Keys == r.Keys;
    forall f | f in l ensures l[f] == r[f] {
      assert Get(l, f) == Get(r, f);
    }
  }

  /** After `update_user_password(username, p)` the user logs in with `p`
      and with no other password: the field written is the field read. */
  lemma {:induction false} PasswordUpdateLogsIn(users: seq<Entry<Record>>, username: string, password: string, now: int)
    requires UniqueIds(users) && FindBy(users, "username", Str(username)).Some?
    ensures var after := Patch(users, FindBy(users, "username", Str(username)).value["id"].s, PasswordFields(password, now));
      VerifySpec(after, username, password).Return? && VerifySpec(after, username, password).value.Some? &&
      forall q :: q != password ==> VerifySpec(after, username, q) == Return(None)
  {
    var p := FieldIs("username", Str(username));
    ScanFindsIndex(users, "username", Str(username));
    var k := FirstIndex(users, p).value;
    var id := users[k].id;
    assert FindBy(users, "username", Str(username)).value["id"].s == id;
    var rec := users[k].rec + PasswordFields(password, now);
    LookupAt(users, k);
    var after := Patch(users, id, PasswordFields(password, now));
    PutAt(users, k, rec);
    assert after == users[k := Entry(id, rec)];
    assert p(users[k]);
    assert Get(rec, "username") == Get(users[k].rec, "username");
    FindByUpdate(users, "username", Str(username), k, Entry(id, rec));
    assert FindBy(after, "username", Str(username)) == Some(WithId(rec, id));
    assert WithId(rec, id)["password"] == HashPassword(password);
  }

  /** A user created under a free username logs in with its password. */
  lemma CreatedAccountLogsIn(users: seq<Entry<Record>>, k: string, username: string, password: string, role: string, now: int)
    requires !Taken(users, "username", Str(username))
    ensures VerifySpec(users + [Entry(k, NewAccount(username, password, role, now))], username, password).Return?
    ensures VerifySpec(users + [Entry(k, NewAccount(username, password, role, now))], username, password).value.Some?
  {
    var e := Entry(k, NewAccount(username, password, role, now));
    FindByAppend(users, "username", Str(username), e);
    assert WithId(e.rec, k)["password"] == HashPassword(password);
  }

  class FirebaseRealtimeDatabase {
    /** `self.db`: None when the database could not be connected. */
    var db: Option<Handle>

    ghost predicate Valid()
      reads this
    {
      db.Some? ==> UniqueIds(db.value.users) && UniqueIds(db.value.issues)
    }

    constructor (handle: Option<Handle>)
      requires handle.Some? ==> UniqueIds(handle.value.users) && UniqueIds(handle.value.issues)
      ensures Valid() && db == handle
    {
      db := handle;
    }

    /** The users a read of `users` sees: none without a connection. */
    function Users(): seq<Entry<Record>>
      reads this
    {
      if db.Some? then db.value.users else []
    }

    function Issues(): seq<Entry<Record>>
      reads this
    {
      if db.Some? then db.value.issues else []
    }

    // -------------------------------------------------------------------
    // Users.

    /** `create_user`: refused without a connection or when any user has
        the username; otherwise the account is set under a fresh id. */
    method CreateUser(username: string, password: string, role: string, now: int)
      returns (id: Option<string>, msg: string)
      requires Valid()
      modifies this`db
      ensures Valid()
      ensures old(db).None? ==> id.None? && msg == NotConnected && db == old(db)
      ensures old(db).Some? && Taken(old(db).value.users, "username", Str(username)) ==>
        id.None? && msg == "User already exists" && db == old(db)
      ensures old(db).Some? && !Taken(old(db).value.users, "username", Str(username)) ==>
        id.Some? && id.value !in Ids(old(db).value.users) && msg == "User created successfully" &&
        db == Some(old(db).value.(users := old(db).value.users + [Entry(id.value, NewAccount(username, password, role, now))]))
    {
      if db.None? {
        return None, NotConnected;
      }
      var xs := db.value.users;
      var i := Scan(xs, FieldIs("username", Str(username)));
      ScanFindsIndex(xs, "username", Str(username));
      assert FoundAt(xs, i) == FindBy(xs, "username", Str(username));
      if i.Some? {
        assert Get(xs[i.value].rec, "username") == Str(username);
        return None, "User already exists";
      }
      var k := FreshKey(xs);
      db := Some(db.value.(users := Put(xs, k, NewAccount(username, password, role, now))));
      return Some(k), "User created successfully";
    }

    /** `get_user_by_username`: the first user with that username, with its id. */
    method GetUserByUsername(username: string) returns (r: Option<Record>)
      ensures r == FindBy(Users(), "username", Str(username))
    {
      if db.None? {
        return None;
      }
      var xs := db.value.users;
      var i := Scan(xs, FieldIs("username", Str(username)));
      ScanFindsIndex(xs, "username", Str(username));
      r := FoundAt(xs, i);
    }

    /** `get_user_by_id`: the record under the id, unless missing or empty. */
    method GetUserById(id: string) returns (r: Option<Record>)
      ensures r == ById(Users(), id)
    {
      if db.None? {
        return None;
      }
      r := ById(db.value.users, id);
    }

    method VerifyPassword(username: string, password: string) returns (r: Outcome<Option<Record>>)
      ensures r == VerifySpec(Users(), username, password)
    {
      var user := GetUserByUsername(username);
      if user.None? {
        return Return(None);
      }
      if "password" !in user.value {
        return Raise("KeyError");
      }
      if CheckPasswordHash(user.value["password"], password) {
        return Return(user);
      }
      return Return(None);
    }

    /** `get_all_users`: every user with its id, by username ascending. */
    method GetAllUsers() returns (r: seq<Record>)
      ensures r == SortBy(WithIds(Users()), UsernameKey, false)
    {
      if db.None? {
        return [];
      }
      var list := CollectWithIds(db.value.users);
      r := SortBy(list, UsernameKey, false);
    }

    /** `update_user_password`: only `password` and `updated_at` of the
        first user with the username change. */
    method UpdateUserPassword(username: string, password: string, now: int) returns (ok: bool, msg: string)
      requires Valid()
      modifies this`db
      ensures Valid()
      ensures old(db).None? ==> !ok && msg == NotConnected && db == old(db)
      ensures old(db).Some? && FindBy(old(db).value.users, "username", Str(username)).None? ==>
        !ok && msg == "User not found" && db == old(db)
      ensures old(db).Some? && FindBy(old(db).value.users, "username", Str(username)).Some? ==>
        var id := FindBy(old(db).value.users, "username", Str(username)).value["id"].s;
        ok && msg == "Password updated successfully" &&
        db == Some(old(db).value.(users := Patch(old(db).value.users, id, PasswordFields(password, now))))
      ensures ok ==> VerifySpec(Users(), username, password).Return? && VerifySpec(Users(), username, password).value.Some?
    {
      if db.None? {
        return false, NotConnected;
      }
      var user := GetUserByUsername(username);
      if user.None? {
        return false, "User not found";
      }
      var id := user.value["id"].s;
      PasswordUpdateLogsIn(db.value.users, username, password, now);
      db := Some(db.value.(users := Patch(db.value.users, id, PasswordFields(password, now))));
      return true, "Password updated successfully";
    }

    // -------------------------------------------------------------------
    // Issues.

    /** `create_issue`: a pending issue with an empty response under a fresh id. */
    method CreateIssue(studentId: Value, subject: string, category: string, message: string, now: int)
      returns (id: Option<string>, msg: string)
      requires Valid()
      modifies this`db
      ensures Valid()
      ensures old(db).None? ==> id.None? && msg == NotConnected && db == old(db)
      ensures old(db).Some? ==>
        id.Some? && id.value !in Ids(old(db).value.issues) && msg == "Issue created successfully" &&
        db == Some(old(db).value.(issues := old(db).value.issues + [Entry(id.value, NewIssue(studentId, subject, category, message, now))]))
    {
      if db.None? {
        return None, NotConnected;
      }
      var k := FreshKey(db.value.issues);
      db := Some(db.value.(issues := Put(db.value.issues, k, NewIssue(studentId, subject, category, message, now))));
      return Some(k), "Issue created successfully";
    }

    /** `get_issues_by_student`: exactly the student's issues, newest first. */
    method GetIssuesByStudent(studentId: Value) returns (r: seq<Record>)
      ensures r == SortBy(Filter(WithIds(Issues()), RecordFieldIs("student_id", studentId)), CreatedAtKey, true)
      ensures SortedBy(r, CreatedAtKey, true)
      ensures forall x :: (multiset(r)[x] ==
                           if Get(x, "student_id") == studentId then multiset(WithIds(Issues()))[x] else 0)
    {
      r := IssuesWhere("student_id", studentId);
    }

    /** `get_issues_by_status`: exactly the issues with that status, newest first. */
    method GetIssuesByStatus(status: Value) returns (r: seq<Record>)
      ensures r == SortBy(Filter(WithIds(Issues()), RecordFieldIs("status", status)), CreatedAtKey, true)
      ensures SortedBy(r, CreatedAtKey, true)
      ensures forall x :: (multiset(r)[x] ==
                           if Get(x, "status") == status then multiset(WithIds(Issues()))[x] else 0)
    {
      r := IssuesWhere("status", status);
    }

    /** The loop shared by the two issue queries: keep the matching
        issues with their ids, then sort newest first. */
    method IssuesWhere(field: string, v: Value) returns (r: seq<Record>)
      ensures r == SortBy(Filter(WithIds(Issues()), RecordFieldIs(field, v)), CreatedAtKey, true)
      ensures SortedBy(r, CreatedAtKey, true)
      ensures forall x :: (multiset(r)[x] ==
                           if Get(x, field) == v then multiset(WithIds(Issues()))[x] else 0)
    {
      if db.None? {
        return [];
      }
      var matching := Sift(WithIds(db.value.issues), RecordFieldIs(field, v));
      FilterMeaning(WithIds(db.value.issues), RecordFieldIs(field, v));
      r := SortBy(matching, CreatedAtKey, true);
    }

    /** `get_all_issues`: every issue with its id, newest first. */
    method GetAllIssues() returns (r: seq<Record>)
      ensures r == SortBy(WithIds(Issues()), CreatedAtKey, true)
    {
      if db.None? {
        return [];
      }
      var list := CollectWithIds(db.value.issues);
      r := SortBy(list, CreatedAtKey, true);
    }

    method GetIssueById(id: string) returns (r: Option<Record>)
      ensures r == ById(Issues(), id)
    {
      if db.None? {
        return None;
      }
      r := ById(db.value.issues, id);
    }

    /** `update_issue_status`: a patch of status, time and a truthy
        response. Nothing checks that the issue exists, so a missing one is
        created from the patch alone. */
    method UpdateIssueStatus(id: string, status: Value, response: Value, now: int) returns (ok: bool, msg: string)
      requires Valid()
      modifies this`db
      ensures Valid()
      ensures old(db).None? ==> !ok && msg == NotConnected && db == old(db)
      ensures old(db).Some? ==>
        ok && msg == "Issue updated successfully" &&
        db == Some(old(db).value.(issues := Patch(old(db).value.issues, id, StatusFields(status, response, now))))
      ensures old(db).Some? && id in Ids(old(db).value.issues) ==>
        Lookup(db.value.issues, id) == Some(IssueUpdated(Lookup(old(db).value.issues, id).value, status, response, now))
    {
      if db.None? {
        return false, NotConnected;
      }
      if id in Ids(db.value.issues) {
        StatusPatchAgrees(Lookup(db.value.issues, id).value, status, response, now);
      }
      db := Some(db.value.(issues := Patch(db.value.issues, id, StatusFields(status, response, now))));
      return true, "Issue updated successfully";
    }

    /** `delete_issue`: that issue goes, every other issue stays. */
    method DeleteIssue(id: string) returns (ok: bool, msg: string)
      requires Valid()
      modifies this`db
      ensures Valid()
      ensures old(db).None? ==> !ok && msg == NotConnected && db == old(db)
      ensures old(db).Some? ==>
        ok && msg == "Issue deleted successfully" &&
        db == Some(old(db).value.(issues := Remove(old(db).value.issues, id)))
      ensures old(db).Some? ==> id !in Ids(db.value.issues)
      ensures old(db).Some? ==> forall j :: j != id ==> Lookup(db.value.issues, j) == Lookup(old(db).value.issues, j)
    {
      if db.None? {
        return false, NotConnected;
      }
      var xs := db.value.issues;
      forall j | j != id ensures Lookup(Remove(xs, id), j) == Lookup(xs, j) {
        RemoveLookup(xs, id, j);
      }
      db := Some(db.value.(issues := Remove(xs, id)));
      return true, "Issue deleted successfully";
    }

    // -------------------------------------------------------------------
    // Statistics.

    /** `get_user_count_by_role`: users per role, a missing role counted
        as `'unknown'`; the counts add up to the number of users. */
    method GetUserCountByRole() returns (m: map<Value, nat>)
      ensures m == CountBy(FieldValues(SortBy(WithIds(Users()), UsernameKey, false), "role", Str("unknown")))
      ensures MapSum(m) == |Users()|
    {
      var all := GetAllUsers();
      m := Tally(FieldValues(all, "role", Str("unknown")));
      CountsAddUp(all, "role");
    }

    /** `get_issue_count_by_status`: issues per status, a missing status
        counted as `'unknown'`; the counts add up to the number of issues. */
    method GetIssueCountByStatus() returns (m: map<Value, nat>)
      ensures m == CountBy(FieldValues(SortBy(WithIds(Issues()), CreatedAtKey, true), "status", Str("unknown")))
      ensures MapSum(m) == |Issues()|
    {
      var all := GetAllIssues();
      m := Tally(FieldValues(all, "status", Str("unknown")));
      CountsAddUp(all, "status");
    }
  }
}
