/** A collection of a key-value store: an ordered sequence of (id, record)
    entries with distinct ids, so that "the first match" of a scan is
    well defined. The three store variants of the portal (the REST-backed
    store, the in-memory document store and the realtime-database handle)
    all keep their collections in this shape. */
module Store {
  import opened Json

  datatype Entry<T> = Entry(id: string, rec: T)

  function Ids<T>(xs: seq<Entry<T>>): set<string> {
    set i | 0 <= i < |xs| :: xs[i].id
  }

  /** No two entries share an id: the first id is not among the rest, and
      so on down the collection. */
  ghost predicate UniqueIds<T>(xs: seq<Entry<T>>)
    decreases |xs|
  {
    xs == [] || (xs[0].id !in Ids(xs[1..]) && UniqueIds(xs[1..]))
  }

  /** Entries at different positions have different ids. */
  ghost predicate DistinctIds<T>(xs: seq<Entry<T>>) {
    forall i, j :: 0 <= i < j < |xs| ==> xs[i].id != xs[j].id
  }

  /** The two ways of saying that ids are unique agree. */
  lemma {:induction false} UniqueIdsDistinct<T>(xs: seq<Entry<T>>)
    ensures UniqueIds(xs) <==> DistinctIds(xs)
    decreases |xs|
  {
    if xs != [] {
      UniqueIdsDistinct(xs[1..]);
      assert forall k :: 1 <= k < |xs| ==> xs[k] == xs[1..][k - 1];
      assert xs[0].id in Ids(xs[1..]) <==> exists k :: 1 <= k < |xs| && xs[k].id == xs[0].id by {
        if xs[0].id in Ids(xs[1..]) {
          var k :| 0 <= k < |xs[1..]| && xs[1..][k].id == xs[0].id;
          assert xs[k + 1].id == xs[0].id;
        }
      }
    }
  }

  /** An entry under a new id keeps the ids unique. */
  lemma UniqueIdsAppend<T>(xs: seq<Entry<T>>, e: Entry<T>)
    requires UniqueIds(xs) && e.id !in Ids(xs)
    ensures UniqueIds(xs + [e])
  {
    UniqueIdsDistinct(xs);
    UniqueIdsDistinct(xs + [e]);
    var ys := xs + [e];
    forall i, j | 0 <= i < j < |ys| ensures ys[i].id != ys[j].id {
      if j == |xs| {
        assert ys[i].id == xs[i].id;
      }
    }
  }

  /** Index of the first element that satisfies `p`. */
  function FirstIndex<T>(xs: seq<T>, p: T -> bool): (r: Option<nat>)
    ensures r.Some? ==> r.value < |xs| && p(xs[r.value])
    ensures r.Some? ==> forall j :: 0 <= j < r.value ==> !p(xs[j])
    ensures r.None? ==> forall j :: 0 <= j < |xs| ==> !p(xs[j])
  {
    if xs == [] then None
    else if p(xs[0]) then Some(0)
    else match FirstIndex(xs[1..], p)
      case None => None
      case Some(k) => Some(k + 1)
  }

  /** A first index found some other way is the one `FirstIndex` finds. */
  lemma FirstIndexIs<T>(xs: seq<T>, p: T -> bool, r: Option<nat>)
    requires r.Some? ==> r.value < |xs| && p(xs[r.value]) && forall j :: 0 <= j < r.value ==> !p(xs[j])
    requires r.None? ==> forall j :: 0 <= j < |xs| ==> !p(xs[j])
    ensures FirstIndex(xs, p) == r
  {
  }

  /** Index of the entry stored under `id`. */
  function IndexOfId<T>(xs: seq<Entry<T>>, id: string): (r: Option<nat>)
    ensures r.Some? ==> r.value < |xs| && xs[r.value].id == id
    ensures r.Some? ==> forall j :: 0 <= j < r.value ==> xs[j].id != id
    ensures r.None? <==> id !in Ids(xs)
  {
    if xs == [] then None
    else if xs[0].id == id then Some(0)
    else
      var k := IndexOfId(xs[1..], id);
      assert forall j :: 1 <= j < |xs| ==> xs[j] == xs[1..][j - 1];
      match k
      case None => None
      case Some(k) => Some(k + 1)
  }

  /** Replacing an entry by one under the same verdict for `id` leaves
      the index of `id` where it was. */
  lemma {:induction false} IndexOfIdUpdate<T>(xs: seq<Entry<T>>, i: nat, y: Entry<T>, id: string)
    requires i < |xs| && (y.id == id <==> xs[i].id == id)
    ensures IndexOfId(xs[i := y], id) == IndexOfId(xs, id)
  {
    if i == 0 {
      assert xs[i := y][1..] == xs[1..];
    } else {
      IndexOfIdUpdate(xs[1..], i - 1, y, id);
      assert xs[i := y][1..] == xs[1..][i - 1 := y];
    }
  }

  /** Appending an entry does not move an earlier index, and the appended
      entry is found when nothing before it is. */
  lemma {:induction false} IndexOfIdAppend<T>(xs: seq<Entry<T>>, y: Entry<T>, id: string)
    ensures IndexOfId(xs, id).Some? ==> IndexOfId(xs + [y], id) == IndexOfId(xs, id)
    ensures IndexOfId(xs, id).None? ==> IndexOfId(xs + [y], id) == if y.id == id then Some(|xs|) else None
  {
    if xs != [] {
      IndexOfIdAppend(xs[1..], y, id);
      assert (xs + [y])[1..] == xs[1..] + [y];
    }
  }

  /** The record stored under `id`, as a GET of `collection/id` returns it. */
  function Lookup<T>(xs: seq<Entry<T>>, id: string): (r: Option<T>)
    ensures r.Some? <==> id in Ids(xs)
  {
    match IndexOfId(xs, id)
    case None => None
    case Some(i) => Some(xs[i].rec)
  }

  /** With distinct ids, the id of entry `i` looks up to the record of entry `i`. */
  lemma LookupAt<T>(xs: seq<Entry<T>>, i: nat)
    requires UniqueIds(xs) && i < |xs|
    ensures Lookup(xs, xs[i].id) == Some(xs[i].rec)
  {
    UniqueIdsDistinct(xs);
    assert IndexOfId(xs, xs[i].id) == Some(i);
  }

  /** Writing a whole record under `id` (a PUT or `set`): the entry is
      replaced where it stands, or appended when the id is new. */
  function Put<T>(xs: seq<Entry<T>>, id: string, rec: T): (r: seq<Entry<T>>)
    ensures Lookup(r, id) == Some(rec)
    ensures UniqueIds(xs) ==> UniqueIds(r)
    ensures id in Ids(xs) ==> |r| == |xs|
    ensures id !in Ids(xs) ==> r == xs + [Entry(id, rec)]
  {
    UniqueIdsDistinct(xs);
    match IndexOfId(xs, id)
    case Some(i) =>
      var r := xs[i := Entry(id, rec)];
      UniqueIdsDistinct(r);
      IndexOfIdUpdate(xs, i, Entry(id, rec), id);
      r
    case None =>
      var r := xs + [Entry(id, rec)];
      assert UniqueIds(xs) ==> UniqueIds(r) by {
        if UniqueIds(xs) {
          UniqueIdsAppend(xs, Entry(id, rec));
        }
      }
      IndexOfIdAppend(xs, Entry(id, rec), id);
      r
  }

  /** A write under `id` adds `id` to the ids and leaves every other id
      reading as before. */
  lemma PutFrame<T>(xs: seq<Entry<T>>, id: string, rec: T)
    ensures forall j :: j != id ==> Lookup(Put(xs, id, rec), j) == Lookup(xs, j)
    ensures Ids(Put(xs, id, rec)) == Ids(xs) + {id}
  {
    UniqueIdsDistinct(xs);
    match IndexOfId(xs, id)
    case Some(i) =>
      var r := xs[i := Entry(id, rec)];
      forall j | j != id ensures Lookup(r, j) == Lookup(xs, j) {
        IndexOfIdUpdate(xs, i, Entry(id, rec), j);
      }
      assert Ids(r) == Ids(xs) by {
        forall k | 0 <= k < |xs| ensures xs[k].id == r[k].id { }
      }
    case None =>
      var r := xs + [Entry(id, rec)];
      forall j | j != id ensures Lookup(r, j) == Lookup(xs, j) {
        IndexOfIdAppend(xs, Entry(id, rec), j);
      }
      assert Ids(r) == Ids(xs) + {id} by {
        assert r[|xs|].id == id;
        forall k | 0 <= k < |xs| ensures xs[k].id == r[k].id { }
      }
  }

  /** With distinct ids, writing under the id of entry `i` replaces entry `i`. */
  lemma PutAt<T>(xs: seq<Entry<T>>, i: nat, rec: T)
    requires UniqueIds(xs) && i < |xs|
    ensures Put(xs, xs[i].id, rec) == xs[i := Entry(xs[i].id, rec)]
  {
    UniqueIdsDistinct(xs);
    var k := IndexOfId(xs, xs[i].id);
    assert k == Some(i);
  }

  /** A lookup inspects the first entry, then the rest. */
  lemma LookupCons<T>(xs: seq<Entry<T>>, j: string)
    requires xs != []
    ensures Lookup(xs, j) == if xs[0].id == j then Some(xs[0].rec) else Lookup(xs[1..], j)
  {
  }

  /** Deleting the entry under `id` (a DELETE, `remove` or `del`); a
      missing id leaves the collection as it is. */
  function Remove<T>(xs: seq<Entry<T>>, id: string): (r: seq<Entry<T>>)
    ensures Ids(r) == Ids(xs) - {id}
    ensures id !in Ids(xs) ==> r == xs
    ensures UniqueIds(xs) ==> UniqueIds(r)
  {
    if xs == [] then []
    else
      var rest := Remove(xs[1..], id);
      assert Ids(xs) == {xs[0].id} + Ids(xs[1..]) by {
        forall k | 0 <= k < |xs[1..]| ensures xs[1..][k].id == xs[k + 1].id { }
      }
      if xs[0].id == id then
        rest
      else
        var r := [xs[0]] + rest;
        assert Ids(r) == {xs[0].id} + Ids(rest) by {
          assert r[0].id == xs[0].id;
          forall k | 0 <= k < |rest| ensures r[k + 1].id == rest[k].id { }
          forall z | z in Ids(r) ensures z in {xs[0].id} + Ids(rest) {
            var k :| 0 <= k < |r| && r[k].id == z;
            if k > 0 { assert rest[k - 1].id == z; }
          }
        }
        assert r[1..] == rest;
        r
  }

  /** Deleting one id leaves what every other id looks up to as it was. */
  lemma {:induction false} RemoveLookup<T>(xs: seq<Entry<T>>, id: string, j: string)
    requires j != id
    ensures Lookup(Remove(xs, id), j) == Lookup(xs, j)
  {
    if xs != [] {
      RemoveLookup(xs[1..], id, j);
      LookupCons(xs, j);
      if xs[0].id != id {
        LookupCons(Remove(xs, id), j);
      }
    }
  }

  // ---------------------------------------------------------------------
  // Filtering and sorting of query results.

  /** The elements of `xs` that satisfy `p`, in their order. */
  function Filter<T(!new)>(xs: seq<T>, p: T -> bool): seq<T> {
    if xs == [] then []
    else
      var rest := Filter(xs[1..], p);
      if p(xs[0]) then [xs[0]] + rest else rest
  }

  /** Filtering keeps exactly the elements that pass, each as often as
      before. */
  lemma {:induction false} FilterMeaning<T(!new)>(xs: seq<T>, p: T -> bool)
    ensures |Filter(xs, p)| <= |xs|
    ensures forall i :: 0 <= i < |Filter(xs, p)| ==> p(Filter(xs, p)[i])
    ensures forall x :: multiset(Filter(xs, p))[x] == if p(x) then multiset(xs)[x] else 0
  {
    if xs != [] {
      FilterMeaning(xs[1..], p);
      assert xs == [xs[0]] + xs[1..];
    }
  }

  /** Filtering one more element extends the result by that element when
      it passes: the loop `if p(x): out.append(x)`. */
  lemma {:induction false} FilterSnoc<T(!new)>(xs: seq<T>, x: T, p: T -> bool)
    ensures Filter(xs + [x], p) == Filter(xs, p) + (if p(x) then [x] else [])
  {
    if xs == [] {
      assert [] + [x] == [x];
    } else {
      assert (xs + [x])[1..] == xs[1..] + [x];
      assert (xs + [x])[0] == xs[0];
      FilterSnoc(xs[1..], x, p);
    }
  }

  /** One more element of a prefix filtered: the step of the loop in `Sift`. */
  lemma FilterPrefixStep<T(!new)>(xs: seq<T>, i: nat, p: T -> bool)
    requires i < |xs|
    ensures Filter(xs[..i + 1], p) == Filter(xs[..i], p) + (if p(xs[i]) then [xs[i]] else [])
  {
    assert xs[..i + 1] == xs[..i] + [xs[i]];
    FilterSnoc(xs[..i], xs[i], p);
  }

  /** A loop that keeps the elements passing `p`, in order. */
  method Sift<T(==,!new)>(xs: seq<T>, p: T -> bool) returns (r: seq<T>)
    ensures r == Filter(xs, p)
  {
    r := [];
    var i := 0;
    while i < |xs|
      invariant i <= |xs|
      invariant r == Filter(xs[..i], p)
    {
      FilterPrefixStep(xs, i, p);
      if p(xs[i]) {
        r := r + [xs[i]];
      }
      i := i + 1;
    }
    assert xs[..i] == xs;
  }

  /** `a` may stand before `b` in an ascending (or, with `desc`,
      descending) sort. */
  predicate InOrder(a: Value, b: Value, desc: bool) {
    if desc then ValueLe(b, a) else ValueLe(a, b)
  }

  ghost predicate SortedBy<T>(xs: seq<T>, key: T -> Value, desc: bool) {
    forall i, j :: 0 <= i < j < |xs| ==> InOrder(key(xs[i]), key(xs[j]), desc)
  }

  /** `x` put after every element whose key it does not strictly precede,
      so that equal keys keep their order (Python's sort is stable). */
  function Insert<T(==)>(x: T, xs: seq<T>, key: T -> Value, desc: bool): (r: seq<T>)
    ensures |r| == |xs| + 1
    ensures multiset(r) == multiset(xs) + multiset{x}
  {
    if xs == [] then [x]
    else if InOrder(key(x), key(xs[0]), desc) && !InOrder(key(xs[0]), key(x), desc) then
      [x] + xs
    else
      assert xs == [xs[0]] + xs[1..];
      [xs[0]] + Insert(x, xs[1..], key, desc)
  }

  lemma {:induction false} InsertSorted<T>(x: T, xs: seq<T>, key: T -> Value, desc: bool)
    requires SortedBy(xs, key, desc)
    ensures SortedBy(Insert(x, xs, key, desc), key, desc)
  {
    if xs != [] {
      if InOrder(key(x), key(xs[0]), desc) && !InOrder(key(xs[0]), key(x), desc) {
        forall j | 0 <= j < |xs| ensures InOrder(key(x), key(xs[j]), desc) {
          if j > 0 {
            InOrderTrans(key(x), key(xs[0]), key(xs[j]), desc);
          }
        }
        ConsSorted(x, xs, key, desc);
      } else {
        var rest := Insert(x, xs[1..], key, desc);
        InsertSorted(x, xs[1..], key, desc);
        InOrderTotal(key(x), key(xs[0]), desc);
        forall j | 0 <= j < |rest| ensures InOrder(key(xs[0]), key(rest[j]), desc) {
          assert multiset(rest)[rest[j]] > 0;
          if rest[j] != x {
            assert rest[j] in xs[1..];
          }
        }
        ConsSorted(xs[0], rest, key, desc);
      }
    }
  }

  /** A head that may stand before every element of a sorted sequence
      keeps it sorted. */
  lemma ConsSorted<T>(h: T, rest: seq<T>, key: T -> Value, desc: bool)
    requires SortedBy(rest, key, desc)
    requires forall j :: 0 <= j < |rest| ==> InOrder(key(h), key(rest[j]), desc)
    ensures SortedBy([h] + rest, key, desc)
  {
    var r := [h] + rest;
    forall i, j | 0 <= i < j < |r| ensures InOrder(key(r[i]), key(r[j]), desc) {
      assert r[j] == rest[j - 1];
      if i > 0 {
        assert r[i] == rest[i - 1];
      }
    }
  }

  lemma InOrderTotal(a: Value, b: Value, desc: bool)
    ensures InOrder(a, b, desc) || InOrder(b, a, desc)
  {
    ValueLeTotal(a, b);
  }

  lemma InOrderTrans(a: Value, b: Value, c: Value, desc: bool)
    requires InOrder(a, b, desc) && InOrder(b, c, desc)
    ensures InOrder(a, c, desc)
  {
    if desc { ValueLeTrans(c, b, a); } else { ValueLeTrans(a, b, c); }
  }

  /** `sorted(xs, key=key, reverse=desc)`: a permutation of `xs` in key order. */
  function SortBy<T(==)>(xs: seq<T>, key: T -> Value, desc: bool): (r: seq<T>)
    ensures |r| == |xs|
    ensures multiset(r) == multiset(xs)
    ensures SortedBy(r, key, desc)
  {
    if xs == [] then []
    else
      assert xs == xs[..|xs| - 1] + [xs[|xs| - 1]];
      var sorted := SortBy(xs[..|xs| - 1], key, desc);
      InsertSorted(xs[|xs| - 1], sorted, key, desc);
      Insert(xs[|xs| - 1], sorted, key, desc)
  }

  /** Filtering a sorted sequence keeps it sorted. */
  lemma {:induction false} FilterSorted<T(!new)>(xs: seq<T>, p: T -> bool, key: T -> Value, desc: bool)
    requires SortedBy(xs, key, desc)
    ensures SortedBy(Filter(xs, p), key, desc)
  {
    if xs != [] {
      FilterSorted(xs[1..], p, key, desc);
      var rest := Filter(xs[1..], p);
      if p(xs[0]) {
        FilterMeaning(xs[1..], p);
        var r := [xs[0]] + rest;
        forall j | 0 < j < |r| ensures InOrder(key(r[0]), key(r[j]), desc) {
          assert multiset(rest)[r[j]] > 0;
          assert r[j] in xs[1..];
        }
      }
    }
  }

  // ---------------------------------------------------------------------
  // Counting by key, as `counts[k] = counts.get(k, 0) + 1` does in a loop.

  /** The counts after the loop has seen `ks`: every key seen, with the
      number of times it was seen. */
  function CountBy(ks: seq<Value>): map<Value, nat> {
    if ks == [] then map[]
    else
      var m := CountBy(ks[..|ks| - 1]);
      var k := ks[|ks| - 1];
      m[k := (if k in m then m[k] else 0) + 1]
  }

  /** Every key seen is counted, with the number of times it occurs. */
  lemma {:induction false} CountByMeaning(ks: seq<Value>)
    ensures forall k :: k in CountBy(ks) <==> k in ks
    ensures forall k :: k in CountBy(ks) ==> CountBy(ks)[k] == multiset(ks)[k]
  {
    if ks != [] {
      CountByMeaning(ks[..|ks| - 1]);
      assert ks == ks[..|ks| - 1] + [ks[|ks| - 1]];
    }
  }

  ghost function MapSum(m: map<Value, nat>): nat
    decreases |m|
  {
    if m == map[] then 0
    else
      var k :| k in m;
      m[k] + MapSum(m - {k})
  }

  /** The sum does not depend on which key is taken out first. */
  lemma {:induction false} MapSumRemove(m: map<Value, nat>, k: Value)
    requires k in m
    ensures MapSum(m) == m[k] + MapSum(m - {k})
    decreases |m|
  {
    var j :| j in m && MapSum(m) == m[j] + MapSum(m - {j});
    if j != k {
      var mj := m - {j};
      var mk := m - {k};
      MapSumRemove(mj, k);
      MapSumRemove(mk, j);
      assert mj - {k} == mk - {j};
    }
  }

  /** Counting one more key adds one to the total. */
  lemma CountOneMore(m: map<Value, nat>, k: Value)
    ensures MapSum(m[k := (if k in m then m[k] else 0) + 1]) == MapSum(m) + 1
  {
    var m' := m[k := (if k in m then m[k] else 0) + 1];
    MapSumRemove(m', k);
    if k in m {
      MapSumRemove(m, k);
      assert m' - {k} == m - {k};
    } else {
      assert m' - {k} == m;
    }
  }

  /** The counts add up to the number of keys counted. */
  lemma {:induction false} CountByTotal(ks: seq<Value>)
    ensures MapSum(CountBy(ks)) == |ks|
  {
    if ks != [] {
      var init := ks[..|ks| - 1];
      var k := ks[|ks| - 1];
      var m := CountBy(init);
      assert CountBy(ks) == m[k := (if k in m then m[k] else 0) + 1];
      CountByTotal(init);
      CountOneMore(m, k);
    }
  }

  // ---------------------------------------------------------------------
  // Scanning loops of the data layer.

  /** The scan `for x in xs: if p(x): return ...`: the index of the first
      element that satisfies `p`. */
  method Scan<T>(xs: seq<T>, p: T -> bool) returns (r: Option<nat>)
    ensures r == FirstIndex(xs, p)
  {
    var i := 0;
    while i < |xs|
      invariant i <= |xs|
      invariant forall j :: 0 <= j < i ==> !p(xs[j])
    {
      if p(xs[i]) {
        return Some(i);
      }
      i := i + 1;
    }
    return None;
  }

  /** The loop `counts[k] = counts.get(k, 0) + 1` over `ks`. */
  /** Counting one more key of `ks`: the step of the loop in `Tally`. */
  lemma CountByStep(ks: seq<Value>, i: nat)
    requires i < |ks|
    ensures var m := CountBy(ks[..i]);
      CountBy(ks[..i + 1]) == m[ks[i] := (if ks[i] in m then m[ks[i]] else 0) + 1]
  {
    assert ks[..i + 1][..i] == ks[..i];
  }

  method Tally(ks: seq<Value>) returns (m: map<Value, nat>)
    ensures m == CountBy(ks)
  {
    m := map[];
    var i := 0;
    while i < |ks|
      invariant i <= |ks|
      invariant m == CountBy(ks[..i])
    {
      CountByStep(ks, i);
      m := m[ks[i] := (if ks[i] in m then m[ks[i]] else 0) + 1];
      i := i + 1;
    }
    assert ks[..i] == ks;
  }

  // ---------------------------------------------------------------------
  // Records as the scans hand them out.

  /** The record with the field `id` set to its key, as every lookup of
      the data layer returns it. */
  function WithId(rec: Record, id: string): (r: Record)
    ensures Get(r, "id") == Str(id)
    ensures forall f :: f != "id" ==> Get(r, f) == Get(rec, f)
  {
    rec["id" := Str(id)]
  }

  /** Every record of a collection, with its id, in collection order. */
  function WithIds(xs: seq<Entry<Record>>): (r: seq<Record>)
    ensures |r| == |xs|
    ensures forall i :: 0 <= i < |xs| ==> r[i] == WithId(xs[i].rec, xs[i].id)
  {
    seq(|xs|, i requires 0 <= i < |xs| => WithId(xs[i].rec, xs[i].id))
  }

  /** The loop `for id, rec in items: rec['id'] = id; out.append(rec)`. */
  method CollectWithIds(xs: seq<Entry<Record>>) returns (r: seq<Record>)
    ensures r == WithIds(xs)
  {
    r := [];
    var i := 0;
    while i < |xs|
      invariant i <= |xs| && |r| == i
      invariant forall j :: 0 <= j < i ==> r[j] == WithId(xs[j].rec, xs[j].id)
    {
      r := r + [WithId(xs[i].rec, xs[i].id)];
      i := i + 1;
    }
  }

  /** `record.get(field) == v`. */
  function FieldIs(field: string, v: Value): Entry<Record> -> bool {
    (e: Entry<Record>) => Get(e.rec, field) == v
  }

  function FoundAt(xs: seq<Entry<Record>>, i: Option<nat>): (r: Option<Record>)
    requires i.Some? ==> i.value < |xs|
    ensures r.Some? <==> i.Some?
    ensures r.Some? ==> "id" in r.value && r.value["id"] == Str(xs[i.value].id)
  {
    match i
    case None => None
    case Some(k) => Some(WithId(xs[k].rec, xs[k].id))
  }

  /** Index of the first record whose `field` equals `v`. */
  function FindIndex(xs: seq<Entry<Record>>, field: string, v: Value): (r: Option<nat>)
    ensures r.Some? ==> r.value < |xs| && Get(xs[r.value].rec, field) == v
    ensures r.Some? ==> forall j :: 0 <= j < r.value ==> Get(xs[j].rec, field) != v
    ensures r.None? ==> forall j :: 0 <= j < |xs| ==> Get(xs[j].rec, field) != v
  {
    if xs == [] then None
    else if Get(xs[0].rec, field) == v then Some(0)
    else match FindIndex(xs[1..], field, v)
      case None => None
      case Some(k) => Some(k + 1)
  }

  /** The scan `for x in xs: if x.get(field) == v: ...` finds that index. */
  lemma ScanFindsIndex(xs: seq<Entry<Record>>, field: string, v: Value)
    ensures FirstIndex(xs, FieldIs(field, v)) == FindIndex(xs, field, v)
  {
    FirstIndexIs(xs, FieldIs(field, v), FindIndex(xs, field, v));
  }

  /** The first record whose `field` equals `v`, with its id: None exactly
      when no record matches, otherwise the earliest match. */
  function FindBy(xs: seq<Entry<Record>>, field: string, v: Value): (r: Option<Record>)
    ensures r.None? <==> forall i :: 0 <= i < |xs| ==> Get(xs[i].rec, field) != v
    ensures r.Some? ==>
      exists i :: 0 <= i < |xs| && Get(xs[i].rec, field) == v &&
        r.value == WithId(xs[i].rec, xs[i].id) &&
        (forall j :: 0 <= j < i ==> Get(xs[j].rec, field) != v)
    ensures r.Some? ==> "id" in r.value && r.value["id"].Str? && r.value["id"].s in Ids(xs)
  {
    FoundAt(xs, FindIndex(xs, field, v))
  }

  /** A record appended after every record lacking the value is the one
      found. */
  lemma FindByAppend(xs: seq<Entry<Record>>, field: string, v: Value, e: Entry<Record>)
    requires forall i :: 0 <= i < |xs| ==> Get(xs[i].rec, field) != v
    requires Get(e.rec, field) == v
    ensures FindBy(xs + [e], field, v) == Some(WithId(e.rec, e.id))
  {
    var ys := xs + [e];
    assert Get(ys[|xs|].rec, field) == v;
  }

  /** Rewriting a record so that it still matches (or still fails to)
      leaves the search result at the same position. */
  lemma {:induction false} FindByUpdate(xs: seq<Entry<Record>>, field: string, v: Value, i: nat, e: Entry<Record>)
    requires i < |xs| && (Get(e.rec, field) == v <==> Get(xs[i].rec, field) == v)
    ensures FindIndex(xs[i := e], field, v) == FindIndex(xs, field, v)
  {
    if i == 0 {
      assert xs[i := e][1..] == xs[1..];
    } else {
      FindByUpdate(xs[1..], field, v, i - 1, e);
      assert xs[i := e][1..] == xs[1..][i - 1 := e];
    }
  }

  /** `record.get(field, default)` for every record, in order. */
  function FieldValues(rs: seq<Record>, field: string, default: Value): (ks: seq<Value>)
    ensures |ks| == |rs|
    ensures forall i :: 0 <= i < |rs| ==> ks[i] == GetOr(rs[i], field, default)
  {
    seq(|rs|, i requires 0 <= i < |rs| => GetOr(rs[i], field, default))
  }

  // ---------------------------------------------------------------------
  // Fresh keys.

  function TotalIdLength<T>(xs: seq<Entry<T>>): (n: nat)
    ensures forall i :: 0 <= i < |xs| ==> |xs[i].id| <= n
  {
    if xs == [] then 0 else |xs[0].id| + TotalIdLength(xs[1..])
  }

  /** A key that no entry has yet: the key the store generates for a push.
      The model takes a key longer than every existing one. */
  function FreshKey<T>(xs: seq<Entry<T>>): (k: string)
    ensures k !in Ids(xs)
  {
    var k := seq(TotalIdLength(xs) + 1, _ => '-');
    assert forall i :: 0 <= i < |xs| ==> xs[i].id != k;
    k
  }
}
