/** The in-memory document store of firebase_mock.py: a Firestore stand-in
    with counter-allocated document ids, whole-document writes, merges and
    deletes, and a query engine with one `==` filter, one ordering and a
    limit. */
module FirebaseMock {
  import opened Json
  import opened Strings
  import opened Store

  /** `MockDocumentSnapshot`: the id and the stored data, None for a
      document that does not exist. */
  datatype Snapshot = Snapshot(id: string, data: Option<Record>) {
    predicate Exists() {
      data.Some?
    }

    /** `to_dict()`: the data, or `{}` when there is none. */
    function ToDict(): (d: Record)
      ensures data.Some? ==> d == data.value
      ensures data.None? ==> d == map[]
    {
      if data.Some? && data.value != map[] then data.value else map[]
    }
  }

  /** A collection's documents, or none when the collection does not exist. */
  function DocsOf(data: map<string, seq<Entry<Record>>>, c: string): seq<Entry<Record>> {
    if c in data then data[c] else []
  }

  /** `document(id).get()`. */
  function DocGet(data: map<string, seq<Entry<Record>>>, c: string, id: string): (s: Snapshot)
    ensures s.id == id
    ensures s.Exists() <==> id in Ids(DocsOf(data, c))
  {
    Snapshot(id, Lookup(DocsOf(data, c), id))
  }

  /** `document(id).set(rec)`: the collection is created when missing and
      the document written whole. */
  function SetDoc(data: map<string, seq<Entry<Record>>>, c: string, id: string, rec: Record)
    : (r: map<string, seq<Entry<Record>>>)
    ensures c in r && r[c] == Put(DocsOf(data, c), id, rec)
    ensures forall c' :: c' != c ==> (c' in r <==> c' in data) && (c' in r ==> r[c'] == data[c'])
  {
    data[c := Put(DocsOf(data, c), id, rec)]
  }

  /** After a write, reading the document gives exactly what was written. */
  lemma SetThenGet(data: map<string, seq<Entry<Record>>>, c: string, id: string, rec: Record)
    ensures DocGet(SetDoc(data, c, id, rec), c, id).Exists()
    ensures DocGet(SetDoc(data, c, id, rec), c, id).ToDict() == rec
  {
  }

  /** A write touches no other document. */
  lemma SetLeavesOthers(data: map<string, seq<Entry<Record>>>, c: string, id: string, rec: Record, c': string, id': string)
    requires c' != c || id' != id
    ensures DocGet(SetDoc(data, c, id, rec), c', id') == DocGet(data, c', id')
  {
    if c in data {
      PutFrame(data[c], id, rec);
    }
  }

  /** A missing document reads as not existing, with `{}` as its data. */
  lemma MissingDocument(data: map<string, seq<Entry<Record>>>, c: string, id: string)
    requires c !in data || id !in Ids(data[c])
    ensures !DocGet(data, c, id).Exists() && DocGet(data, c, id).ToDict() == map[]
  {
  }

  /** `document(id).update(fields)`: the fields merged into an existing
      document; a missing document or collection is left alone. */
  function UpdateDoc(data: map<string, seq<Entry<Record>>>, c: string, id: string, fields: Record)
    : (r: map<string, seq<Entry<Record>>>)
    ensures (c !in data || id !in Ids(data[c])) ==> r == data
  {
    if c in data && id in Ids(data[c]) then
      data[c := Put(data[c], id, Lookup(data[c], id).value + fields)]
    else data
  }

  /** An update merges: the given fields take the new values, every other
      field and every other document keep theirs. */
  lemma UpdateMerges(data: map<string, seq<Entry<Record>>>, c: string, id: string, fields: Record, f: string)
    requires c in data && id in Ids(data[c])
    ensures var after := DocGet(UpdateDoc(data, c, id, fields), c, id);
      after.Exists() &&
      Get(after.data.value, f) == if f in fields then fields[f] else Get(DocGet(data, c, id).data.value, f)
  {
  }

  lemma UpdateLeavesOthers(data: map<string, seq<Entry<Record>>>, c: string, id: string, fields: Record, c': string, id': string)
    requires c' != c || id' != id
    ensures DocGet(UpdateDoc(data, c, id, fields), c', id') == DocGet(data, c', id')
  {
    if c in data && id in Ids(data[c]) {
      PutFrame(data[c], id, Lookup(data[c], id).value + fields);
    }
  }

  /** `document(id).delete()`: exactly that document goes; a missing
      document or collection is left alone. */
  function DeleteDoc(data: map<string, seq<Entry<Record>>>, c: string, id: string)
    : (r: map<string, seq<Entry<Record>>>)
    ensures (c !in data || id !in Ids(data[c])) ==> r == data
    ensures c in data ==> c in r && Ids(r[c]) == Ids(data[c]) - {id}
  {
    if c in data && id in Ids(data[c]) then data[c := Remove(data[c], id)] else data
  }

  lemma DeleteRemovesOnlyIt(data: map<string, seq<Entry<Record>>>, c: string, id: string, c': string, id': string)
    ensures !DocGet(DeleteDoc(data, c, id), c, id).Exists()
    ensures c' != c || id' != id ==> DocGet(DeleteDoc(data, c, id), c', id') == DocGet(data, c', id')
  {
    if c in data && id in Ids(data[c]) && c' == c {
      if id' != id {
        RemoveLookup(data[c], id, id');
      }
    }
  }

  /** Every document of a collection as a snapshot, in order. */
  function Snapshots(xs: seq<Entry<Record>>): (r: seq<Snapshot>)
    ensures |r| == |xs|
    ensures forall i :: 0 <= i < |xs| ==> r[i] == Snapshot(xs[i].id, Some(xs[i].rec))
  {
    seq(|xs|, i requires 0 <= i < |xs| => Snapshot(xs[i].id, Some(xs[i].rec)))
  }

  /** The filter of `MockQuery.get`: it applies only when field, operator
      and value are all given, and only the operator `==` rejects
      anything. */
  predicate Passes(s: Snapshot, field: string, op: string, value: Value) {
    !(field != "" && op != "" && value != Null && op == "==" &&
      Get(s.ToDict(), field) != value)
  }

  function PassesFor(field: string, op: string, value: Value): Snapshot -> bool {
    (s: Snapshot) => Passes(s, field, op, value)
  }

  /** The sort key of `MockQuery.get`: the field, `''` when absent. */
  function OrderKey(field: string): Snapshot -> Value {
    (s: Snapshot) => GetOr(s.ToDict(), field, Str(""))
  }

  /** `docs[:n]` with Python's slice bounds: a negative `n` counts from
      the end. */
  function SliceTo<T>(xs: seq<T>, n: int): (r: seq<T>)
    ensures |r| <= |xs| && r == xs[..|r|]
    ensures n >= 0 ==> |r| == if n < |xs| then n else |xs|
    ensures n < 0 ==> |r| == if |xs| + n > 0 then |xs| + n else 0
  {
    if n >= 0 then (if n < |xs| then xs[..n] else xs)
    else if |xs| + n > 0 then xs[..|xs| + n] else []
  }

  /** What `MockQuery.get` answers for a collection's documents: the
      filtered snapshots in collection order, sorted when an order field is
      given (descending only for `'DESCENDING'`), then cut by a non-zero
      limit. */
  function QueryResult(xs: seq<Entry<Record>>, field: string, op: string, value: Value,
                       orderField: string, direction: string, limit: int): seq<Snapshot>
  {
    var docs := Filter(Snapshots(xs), PassesFor(field, op, value));
    var sorted := if orderField != "" then SortBy(docs, OrderKey(orderField), direction == "DESCENDING") else docs;
    if limit != 0 then SliceTo(sorted, limit) else sorted
  }

  /** Every snapshot holds `value` in `field`. */
  predicate AllHold(ss: seq<Snapshot>, field: string, value: Value) {
    forall i :: 0 <= i < |ss| ==> Get(ss[i].ToDict(), field) == value
  }

  /** With an `==` filter, every answer has the value in the field. */
  lemma QueryMatchesFilter(xs: seq<Entry<Record>>, field: string, value: Value,
                           orderField: string, direction: string, limit: int)
    requires field != "" && value != Null
    ensures var r := QueryResult(xs, field, "==", value, orderField, direction, limit);
      forall i :: 0 <= i < |r| ==> Get(r[i].ToDict(), field) == value
  {
    var docs := Filter(Snapshots(xs), PassesFor(field, "==", value));
    FilteredHold(xs, field, value);
    var sorted := if orderField != "" then SortBy(docs, OrderKey(orderField), direction == "DESCENDING") else docs;
    if orderField != "" {
      SortedHold(docs, OrderKey(orderField), direction == "DESCENDING", field, value);
    }
    assert AllHold(sorted, field, value);
  }

  /** The documents an `==` filter lets through hold the value. */
  lemma FilteredHold(xs: seq<Entry<Record>>, field: string, value: Value)
    requires field != "" && value != Null
    ensures AllHold(Filter(Snapshots(xs), PassesFor(field, "==", value)), field, value)
  {
    var docs := Filter(Snapshots(xs), PassesFor(field, "==", value));
    FilterMeaning(Snapshots(xs), PassesFor(field, "==", value));
    forall i | 0 <= i < |docs| ensures Get(docs[i].ToDict(), field) == value {
      assert PassesFor(field, "==", value)(docs[i]);
    }
  }

  /** Sorting keeps a property every element has. */
  lemma SortedHold(docs: seq<Snapshot>, key: Snapshot -> Value, desc: bool, field: string, value: Value)
    requires AllHold(docs, field, value)
    ensures AllHold(SortBy(docs, key, desc), field, value)
  {
    var sorted := SortBy(docs, key, desc);
    forall i | 0 <= i < |sorted| ensures Get(sorted[i].ToDict(), field) == value {
      assert sorted[i] in multiset(docs);
    }
  }

  /** With an `==` filter, every matching document is among the answers
      when no limit cuts them. */
  lemma QueryFindsAllMatches(xs: seq<Entry<Record>>, field: string, value: Value,
                             orderField: string, direction: string, i: nat)
    requires i < |xs| && Get(xs[i].rec, field) == value
    ensures Snapshot(xs[i].id, Some(xs[i].rec)) in QueryResult(xs, field, "==", value, orderField, direction, 0)
  {
    var s := Snapshot(xs[i].id, Some(xs[i].rec));
    var snaps := Snapshots(xs);
    assert snaps[i] == s;
    assert PassesFor(field, "==", value)(s);
    var docs := Filter(snaps, PassesFor(field, "==", value));
    FilterMeaning(snaps, PassesFor(field, "==", value));
    assert multiset(docs)[s] == multiset(snaps)[s] > 0;
    if orderField != "" {
      assert s in multiset(SortBy(docs, OrderKey(orderField), direction == "DESCENDING"));
    }
  }

  /** Without a value (or without a field or operator) nothing is filtered:
      an unordered, unlimited query answers every document in order. */
  lemma QueryWithoutFilter(xs: seq<Entry<Record>>, field: string, op: string)
    ensures QueryResult(xs, field, op, Null, "", "", 0) == Snapshots(xs)
  {
    FilterAll(Snapshots(xs), PassesFor(field, op, Null));
  }

  lemma {:induction false} FilterAll<T(!new)>(xs: seq<T>, p: T -> bool)
    requires forall i :: 0 <= i < |xs| ==> p(xs[i])
    ensures Filter(xs, p) == xs
  {
    if xs != [] {
      FilterAll(xs[1..], p);
    }
  }

  /** A positive limit caps the number of answers, and an ordered query
      answers in order. */
  lemma QueryLimitAndOrder(xs: seq<Entry<Record>>, field: string, op: string, value: Value,
                           orderField: string, direction: string, limit: int)
    ensures limit > 0 ==> |QueryResult(xs, field, op, value, orderField, direction, limit)| <= limit
    ensures orderField != "" ==>
      SortedBy(QueryResult(xs, field, op, value, orderField, direction, limit), OrderKey(orderField), direction == "DESCENDING")
  {
  }

  class MockFirestore {
    /** The collections, each an ordered collection of documents. */
    var data: map<string, seq<Entry<Record>>>
    /** The per-collection counters `add` allocates ids from. */
    var counters: map<string, nat>

    ghost predicate Valid()
      reads this
    {
      forall c :: c in data ==> UniqueIds(data[c])
    }

    /** A store with no saved file: empty `users` and `issues`, both
        counters at 0. */
    constructor ()
      ensures Valid()
      ensures data == map["users" := [], "issues" := []]
      ensures counters == map["users" := 0, "issues" := 0]
    {
      data := map["users" := [], "issues" := []];
      counters := map["users" := 0, "issues" := 0];
    }

    method Collection(name: string) returns (c: MockCollection)
      ensures fresh(c) && c.db == this && c.name == name
    {
      c := new MockCollection(this, name);
    }
  }

  class MockCollection {
    const db: MockFirestore
    const name: string

    constructor (db: MockFirestore, name: string)
      ensures this.db == db && this.name == name
    {
      this.db := db;
      this.name := name;
    }

    method Document(docId: string) returns (d: MockDocument)
      ensures fresh(d) && d.db == db && d.collection == name && d.docId == docId
    {
      d := new MockDocument(db, name, docId);
    }

    /** `add(rec)`: the collection's counter goes up by exactly one and its
        decimal string is the new document's id. */
    method Add(rec: Record) returns (d: MockDocument)
      requires db.Valid()
      modifies db
      ensures db.Valid()
      ensures db.counters == old(db.counters)[name := (if name in old(db.counters) then old(db.counters)[name] else 0) + 1]
      ensures fresh(d) && d.db == db && d.collection == name && d.docId == NatToString(db.counters[name])
      ensures db.data == SetDoc(old(db.data), name, d.docId, rec)
    {
      var n := (if name in db.counters then db.counters[name] else 0) + 1;
      db.counters := db.counters[name := n];
      var id := NatToString(n);
      db.data := SetDoc(db.data, name, id, rec);
      d := new MockDocument(db, name, id);
    }

    /** `where(field, op, value)`: a new query on this collection. */
    method Where(field: string, op: string, value: Value) returns (q: MockQuery)
      ensures fresh(q) && q.db == db && q.collection == name
      ensures q.field == field && q.op == op && q.value == value
      ensures q.orderField == "" && q.direction == "" && q.limit == 0
    {
      q := new MockQuery(db, name, field, op, value);
    }

    /** `order_by(field, direction)`: an unfiltered query, ordered. */
    method OrderBy(field: string, direction: string) returns (q: MockQuery)
      ensures fresh(q) && q.db == db && q.collection == name
      ensures q.field == "" && q.op == "" && q.value == Null
      ensures q.orderField == field && q.direction == direction && q.limit == 0
    {
      q := new MockQuery(db, name, "", "", Null);
      q := q.OrderBy(field, direction);
    }

    /** `get()`: one snapshot per document, `[]` for a missing collection. */
    method Get() returns (docs: seq<Snapshot>)
      ensures docs == Snapshots(DocsOf(db.data, name))
    {
      if name !in db.data {
        return [];
      }
      var xs := db.data[name];
      docs := [];
      var i := 0;
      while i < |xs|
        invariant i <= |xs| && |docs| == i
        invariant forall j :: 0 <= j < i ==> docs[j] == Snapshot(xs[j].id, Some(xs[j].rec))
      {
        docs := docs + [Snapshot(xs[i].id, Some(xs[i].rec))];
        i := i + 1;
      }
    }
  }

  class MockDocument {
    const db: MockFirestore
    const collection: string
    const docId: string

    constructor (db: MockFirestore, collection: string, docId: string)
      ensures this.db == db && this.collection == collection && this.docId == docId
    {
      this.db := db;
      this.collection := collection;
      this.docId := docId;
    }

    method Set(rec: Record)
      requires db.Valid()
      modifies db
      ensures db.Valid()
      ensures db.data == SetDoc(old(db.data), collection, docId, rec)
      ensures db.counters == old(db.counters)
    {
      db.data := SetDoc(db.data, collection, docId, rec);
    }

    method Get() returns (s: Snapshot)
      ensures s == DocGet(db.data, collection, docId)
    {
      if collection in db.data && docId in Ids(db.data[collection]) {
        return Snapshot(docId, Lookup(db.data[collection], docId));
      }
      return Snapshot(docId, None);
    }

    method Update(fields: Record)
      requires db.Valid()
      modifies db
      ensures db.Valid()
      ensures db.data == UpdateDoc(old(db.data), collection, docId, fields)
      ensures db.counters == old(db.counters)
    {
      db.data := UpdateDoc(db.data, collection, docId, fields);
    }

    method Delete()
      requires db.Valid()
      modifies db
      ensures db.Valid()
      ensures db.data == DeleteDoc(old(db.data), collection, docId)
      ensures db.counters == old(db.counters)
    {
      db.data := DeleteDoc(db.data, collection, docId);
    }
  }

  class MockQuery {
    const db: MockFirestore
    const collection: string
    /** The filter; `""` and Null stand for an absent field, operator or value. */
    const field: string
    const op: string
    const value: Value
    /** The ordering and limit; `""` and 0 stand for none. */
    var orderField: string
    var direction: string
    var limit: int

    constructor (db: MockFirestore, collection: string, field: string, op: string, value: Value)
      ensures this.db == db && this.collection == collection
      ensures this.field == field && this.op == op && this.value == value
      ensures orderField == "" && direction == "" && limit == 0
    {
      this.db := db;
      this.collection := collection;
      this.field := field;
      this.op := op;
      this.value := value;
      orderField := "";
      direction := "";
      limit := 0;
    }

    /** `where(...)` on a query: a new query whose filter replaces this
        one's, with no ordering or limit. */
    method Where(field: string, op: string, value: Value) returns (q: MockQuery)
      ensures fresh(q) && q.db == db && q.collection == collection
      ensures q.field == field && q.op == op && q.value == value
      ensures q.orderField == "" && q.direction == "" && q.limit == 0
    {
      q := new MockQuery(db, collection, field, op, value);
    }

    method OrderBy(field: string, direction: string) returns (q: MockQuery)
      modifies this
      ensures q == this && orderField == field && this.direction == direction && limit == old(limit)
    {
      orderField := field;
      this.direction := direction;
      return this;
    }

    method Limit(count: int) returns (q: MockQuery)
      modifies this
      ensures q == this && limit == count
      ensures orderField == old(orderField) && direction == old(direction)
    {
      limit := count;
      return this;
    }

    /** `get()`: filter, then sort, then cut. */
    method Get() returns (docs: seq<Snapshot>)
      ensures docs == QueryResult(DocsOf(db.data, collection), field, op, value, orderField, direction, limit)
    {
      docs := Sift(Snapshots(DocsOf(db.data, collection)), PassesFor(field, op, value));
      if orderField != "" {
        docs := SortBy(docs, OrderKey(orderField), direction == "DESCENDING");
      }
      if limit != 0 {
        docs := SliceTo(docs, limit);
      }
    }
  }
}
