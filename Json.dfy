/** Values as the portal stores them: the JSON documents of the Firebase
    stores and the Python dicts the code builds from them. */
module Json {

  datatype Option<+T> = None | Some(value: T)

  /** What a Python call ends in: a returned value or a raised exception. */
  datatype Outcome<+T> = Return(value: T) | Raise(error: string)

  /** One stored value. `PwHash(p)` stands for `generate_password_hash(p)`:
      hashing is idealised, so a hash checks against exactly the password
      it was made from. Timestamps are integers read from a clock. */
  datatype Value =
    | Null
    | Bool(b: bool)
    | Int(i: int)
    | Str(s: string)
    | PwHash(secret: string)
    | Obj(fields: map<string, Value>)

  /** A document or dict: field name to value. */
  type Record = map<string, Value>

  /** `d.get(f)`: the value under `f`, or None when the key is absent. */
  function Get(d: Record, f: string): (v: Value)
    ensures f !in d ==> v == Null
  {
    if f in d then d[f] else Null
  }

  /** `d.get(f, default)`. */
  function GetOr(d: Record, f: string, default: Value): (v: Value)
    ensures f in d ==> v == d[f]
    ensures f !in d ==> v == default
  {
    if f in d then d[f] else default
  }

  /** Python truthiness of a value: None, False, 0, '' and {} are false. */
  predicate Truthy(v: Value) {
    match v
    case Null => false
    case Bool(b) => b
    case Int(i) => i != 0
    case Str(s) => s != []
    case PwHash(_) => true
    case Obj(m) => m != map[]
  }

  /** `generate_password_hash(p)`. */
  function HashPassword(p: string): (h: Value)
    ensures forall q :: CheckPasswordHash(h, q) <==> q == p
  {
    PwHash(p)
  }

  /** `check_password_hash(h, q)`: anything that is not a hash (the `''`
      default included) never checks. */
  predicate CheckPasswordHash(h: Value, q: string) {
    h.PwHash? && h.secret == q
  }

  // ---------------------------------------------------------------------
  // Ordering of values, as used by `sort(key=...)`.  Python compares
  // strings by code point and numbers numerically; it refuses to compare
  // values of different kinds.  The model orders the kinds as
  // Null < Bool < Str < Int < PwHash < Obj, which puts the `''` default of
  // a missing timestamp below every clock value, as `''` is below every
  // ISO timestamp string in the source.

  function Kind(v: Value): nat {
    match v
    case Null => 0
    case Bool(_) => 1
    case Str(_) => 2
    case Int(_) => 3
    case PwHash(_) => 4
    case Obj(_) => 5
  }

  /** Lexicographic order on strings. */
  predicate StrLe(a: string, b: string)
    decreases |a|
  {
    a == [] || (b != [] && (a[0] < b[0] || (a[0] == b[0] && StrLe(a[1..], b[1..]))))
  }

  predicate ValueLe(a: Value, b: Value) {
    if Kind(a) != Kind(b) then Kind(a) < Kind(b)
    else match a
      case Bool(x) => !x || b.b
      case Int(x) => x <= b.i
      case Str(x) => StrLe(x, b.s)
      case _ => true
  }

  lemma {:induction false} StrLeTotal(a: string, b: string)
    ensures StrLe(a, b) || StrLe(b, a)
    decreases |a|
  {
    if a != [] && b != [] && a[0] == b[0] {
      StrLeTotal(a[1..], b[1..]);
    }
  }

  lemma {:induction false} StrLeTrans(a: string, b: string, c: string)
    requires StrLe(a, b) && StrLe(b, c)
    ensures StrLe(a, c)
    decreases |a|
  {
    if a != [] && b != [] && c != [] && a[0] == b[0] == c[0] {
      StrLeTrans(a[1..], b[1..], c[1..]);
    }
  }

  lemma ValueLeTotal(a: Value, b: Value)
    ensures ValueLe(a, b) || ValueLe(b, a)
  {
    if a.Str? && b.Str? {
      StrLeTotal(a.s, b.s);
    }
  }

  lemma ValueLeTrans(a: Value, b: Value, c: Value)
    requires ValueLe(a, b) && ValueLe(b, c)
    ensures ValueLe(a, c)
  {
    if a.Str? && b.Str? && c.Str? {
      StrLeTrans(a.s, b.s, c.s);
    }
  }
}
