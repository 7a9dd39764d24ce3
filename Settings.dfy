/** The system-settings tree of the portal: a nested dict addressed by
    dotted paths such as `registration_settings.min_password_length`. */
module Settings {
  import opened Json
  import opened Strings

  /** The settings used while the store holds none, one function per
      section of the tree. */
  function DefaultSystemSettings(): Value {
    Obj(map[
      "system_info" := DefaultSystemInfo(),
      "categories" := DefaultCategories(),
      "academic_levels" := DefaultAcademicLevels(),
      "index_prefixes" := DefaultIndexPrefixes(),
      "email_settings" := DefaultEmailSettings(),
      "registration_settings" := DefaultRegistrationSection(),
      "notification_messages" := DefaultNotificationMessages()])
  }

  function DefaultSystemInfo(): Value {
    Obj(map[
      "name" := Str("KTU Student Portal"),
      "full_name" := Str("Koforidua Technical University Student Portal"),
      "description" := Str("Submit and track your academic concerns"),
      "contact_email" := Str("support@ktu.edu.gh"),
      "phone" := Str("+233-000-000-000")])
  }

  function DefaultCategories(): Value {
    Obj(map[
      "academic" := Described("Academic", "Course content, schedules, lecturer issues"),
      "exams_grades" := Described("Exams & Grades", "Missing grades, exam timetables, remark requests"),
      "technical" := Described("Technical", "Portal issues, software problems"),
      "administration" := Described("Administration", "Registration, ID cards, fee clearance"),
      "facilities" := Described("Facilities", "Library, labs, study spaces"),
      "welfare" := Described("Welfare", "Counseling, conflicts, special needs"),
      "other" := Described("Other", "Any other concerns")])
  }

  function DefaultAcademicLevels(): Value {
    Obj(map[
      "100" := Str("Level 100"),
      "200" := Str("Level 200"),
      "300" := Str("Level 300"),
      "400" := Str("Level 400"),
      "graduate" := Str("Graduate"),
      "postgraduate" := Str("Postgraduate")])
  }

  function DefaultIndexPrefixes(): Value {
    Obj(map[
      "CS" := Str("Computer Science"),
      "IT" := Str("Information Technology"),
      "EE" := Str("Electrical Engineering"),
      "ME" := Str("Mechanical Engineering"),
      "CE" := Str("Civil Engineering"),
      "BA" := Str("Business Administration")])
  }

  function DefaultEmailSettings(): Value {
    Obj(map[
      "from_name" := Str("KTU Student Portal"),
      "from_email" := Str("noreply@ktu.edu.gh"),
      "support_email" := Str("support@ktu.edu.gh")])
  }

  function DefaultRegistrationSection(): Value {
    Obj(map[
      "require_email_verification" := Bool(true),
      "allowed_email_domain" := Str("@ktu.edu.gh"),
      "min_password_length" := Int(8),
      "require_index_prefix" := Bool(false)])
  }

  function DefaultNotificationMessages(): Value {
    Obj(map[
      "registration_success" := Str("Registration successful! Please check your email for verification code."),
      "email_verification_required" := Str("Please verify your email address before logging in."),
      "login_success" := Str("Login successful!"),
      "invalid_credentials" := Str("Invalid username or password."),
      "access_denied" := Str("Access denied. Admin privileges required.")])
  }

  /** The defaults are a non-empty dict with a non-empty `system_info`. */
  lemma DefaultsAreTruthy()
    ensures DefaultSystemSettings().Obj? && Truthy(DefaultSystemSettings())
    ensures Truthy(GetOr(DefaultSystemSettings().fields, "system_info", Null))
  {
    var d := DefaultSystemSettings();
    assert "system_info" in d.fields && d.fields["system_info"] == DefaultSystemInfo();
    SystemInfoTruthy();
  }

  lemma SystemInfoTruthy()
    ensures Truthy(DefaultSystemInfo())
  {
    assert "name" in DefaultSystemInfo().fields;
  }

  /** A category entry: `{'name': ..., 'description': ...}`. */
  function Described(name: string, description: string): Value {
    Obj(map["name" := Str(name), "description" := Str(description)])
  }

  /** One step down the tree: the child under `k` of a dict. */
  function Child(c: Value, k: string): Option<Value> {
    if c.Obj? && k in c.fields then Some(c.fields[k]) else None
  }

  /** The value at `path`, or None as soon as a key is missing or the
      current node is not a dict. */
  function GetPath(v: Value, path: seq<string>): Option<Value>
    decreases |path|
  {
    if path == [] then Some(v)
    else match Child(v, path[0])
      case None => None
      case Some(c) => GetPath(c, path[1..])
  }

  /** Walking one more key is one more step from where the walk stood:
      the shape of the loop in `get_setting`. */
  lemma {:induction false} GetPathSnoc(v: Value, path: seq<string>, k: string)
    ensures GetPath(v, path + [k]) ==
      match GetPath(v, path) case None => None case Some(c) => Child(c, k)
    decreases |path|
  {
    if path == [] {
      assert [] + [k] == [k];
    } else {
      assert (path + [k])[1..] == path[1..] + [k];
      match Child(v, path[0])
      case None =>
      case Some(c) => GetPathSnoc(c, path[1..], k);
    }
  }

  /** Walking `p + q` is walking `p`, then `q` from where `p` ended. */
  lemma {:induction false} GetPathAppend(v: Value, p: seq<string>, q: seq<string>)
    ensures GetPath(v, p + q) ==
      match GetPath(v, p) case None => None case Some(c) => GetPath(c, q)
    decreases |p|
  {
    if p == [] {
      assert [] + q == q;
    } else {
      assert (p + q)[1..] == p[1..] + q;
      match Child(v, p[0])
      case None =>
      case Some(c) => GetPathAppend(c, p[1..], q);
    }
  }

  /** The tree after `current[key] = value` at the end of `path`, creating a
      missing dict for every missing intermediate key; None where the
      source raises TypeError because a node on the way is not a dict. */
  function SetPath(v: Value, path: seq<string>, x: Value): (r: Option<Value>)
    requires |path| >= 1
    ensures r.Some? ==> r.value.Obj? && path[0] in r.value.fields
    ensures r.Some? <==> v.Obj? && (|path| == 1 || path[0] !in v.fields || SetPath(v.fields[path[0]], path[1..], x).Some?)
    decreases |path|
  {
    if !v.Obj? then None
    else if |path| == 1 then Some(Obj(v.fields[path[0] := x]))
    else
      var child := if path[0] in v.fields then v.fields[path[0]] else Obj(map[]);
      match SetPath(child, path[1..], x)
      case None => None
      case Some(c) => Some(Obj(v.fields[path[0] := c]))
  }

  /** After a successful update, reading the same path gives the new value. */
  lemma {:induction false} GetAfterSet(v: Value, path: seq<string>, x: Value)
    requires |path| >= 1 && SetPath(v, path, x).Some?
    ensures GetPath(SetPath(v, path, x).value, path) == Some(x)
    decreases |path|
  {
    if |path| > 1 {
      var child := if path[0] in v.fields then v.fields[path[0]] else Obj(map[]);
      GetAfterSet(child, path[1..], x);
    }
  }

  /** Two paths that part ways at some key address different parts of the tree. */
  predicate Diverge(p: seq<string>, q: seq<string>) {
    p != [] && q != [] && (p[0] != q[0] || Diverge(p[1..], q[1..]))
  }

  /** An update changes nothing off its own path: every path that parts
      ways with it reads as before. */
  lemma {:induction false} SetPathElsewhere(v: Value, path: seq<string>, x: Value, q: seq<string>)
    requires |path| >= 1 && SetPath(v, path, x).Some? && Diverge(path, q)
    ensures GetPath(SetPath(v, path, x).value, q) == GetPath(v, q)
    decreases |path|
  {
    if path[0] == q[0] {
      var child := if path[0] in v.fields then v.fields[path[0]] else Obj(map[]);
      SetPathElsewhere(child, path[1..], x, q[1..]);
    }
  }

  /** A two-key path is two steps. */
  lemma GetPathPair(v: Value, a: string, b: string)
    ensures GetPath(v, [a, b]) == match Child(v, a) case None => None case Some(c) => Child(c, b)
  {
    assert [a, b][1..] == [b];
    assert [b][1..] == [];
    match Child(v, a)
    case None =>
    case Some(c) =>
      match Child(c, b)
      case None =>
      case Some(d) => assert GetPath(d, []) == Some(d);
  }

  /** Python's `k in c`: a key test on a dict, a substring test on a
      string, and TypeError on any other node. */
  function PyIn(k: string, c: Value): Outcome<bool> {
    match c
    case Obj(m) => Return(k in m)
    case Str(s) => Return(Contains(s, k))
    case _ => Raise("TypeError")
  }

  /** `if group in tree and key in tree[group]: del tree[group][key]`: the
      tree after the deletion; Return(None) when the guard is false; Raise
      where Python raises TypeError, namely `in` on a node that is neither
      a dict nor a string, indexing a string by a key, or deleting from a
      string. */
  function RemoveChild(v: Value, group: string, key: string): (r: Outcome<Option<Value>>)
    ensures (r.Return? && r.value.Some?) <==> GetPath(v, [group, key]).Some? && Child(v, group).value.Obj?
    ensures r.Return? && r.value.Some? ==> GetPath(r.value.value, [group, key]).None?
    ensures r.Return? && r.value.Some? ==>
      forall q :: Diverge([group, key], q) ==> GetPath(r.value.value, q) == GetPath(v, q)
    ensures r.Raise? ==> !v.Obj? || (group in v.fields && !v.fields[group].Obj?)
    ensures !v.Obj? ==> (r.Raise? <==> !v.Str? || Contains(v.s, group))
    ensures v.Obj? && group in v.fields && !v.fields[group].Obj? ==>
      (r.Raise? <==> !v.fields[group].Str? || Contains(v.fields[group].s, key))
  {
    GetPathPair(v, group, key);
    match PyIn(group, v)
    case Raise(e) => Raise(e)
    case Return(found) =>
      if !found then Return(None)
      else if !v.Obj? then Raise("TypeError")
      else
        var g := v.fields[group];
        match PyIn(key, g)
        case Raise(e) => Raise(e)
        case Return(present) =>
          if !present then Return(None)
          else if !g.Obj? then Raise("TypeError")
          else Return(Some(Removed(v, group, key)))
  }

  /** The tree with `key` deleted from the dict under `group`: the key is
      gone and every path that parts ways with it reads as before. */
  function Removed(v: Value, group: string, key: string): (r: Value)
    requires v.Obj? && group in v.fields && v.fields[group].Obj? && key in v.fields[group].fields
    ensures GetPath(r, [group, key]).None?
    ensures forall q :: Diverge([group, key], q) ==> GetPath(r, q) == GetPath(v, q)
  {
    var m := v.fields[group].fields;
    var r := Obj(v.fields[group := Obj(m - {key})]);
    GetPathPair(r, group, key);
    assert forall q :: Diverge([group, key], q) ==> GetPath(r, q) == GetPath(v, q) by {
      forall q | Diverge([group, key], q) ensures GetPath(r, q) == GetPath(v, q) {
        if q[0] == group {
          assert [group, key][1..] == [key];
          var t := q[1..];
          assert Diverge([key], t);
          assert [key][1..] == [];
          assert !Diverge([], t[1..]);
          assert t[0] != key;
          assert GetPath(r, q) == GetPath(Obj(m - {key}), t);
          assert GetPath(v, q) == GetPath(Obj(m), t);
          assert GetPath(Obj(m - {key}), t) == GetPath(Obj(m), t);
        }
      }
    }
    r
  }
}
