/**
 * The resume collection: a class holding the documents by id, whose `save` checks the schema, and the
 * queries the routes run on it (a filter on status and owner, newest upload first).
 */
module ResumeCollection {
  import opened Outcomes
  import opened Collections
  import opened Users
  import opened ResumeModel

  datatype ResumeDb = ResumeDb(records: map<ResumeId, Resume>, nextId: ResumeId)

  /** Every stored document sits under its own id, below `nextId`, and passed the schema check. */
  ghost predicate ResumeDbValid(db: ResumeDb)
  {
    forall id :: id in db.records ==> id < db.nextId && db.records[id].id == id && SchemaValid(db.records[id])
  }

  /** The documents in insertion order: each stored document exactly once. */
  function Stored(db: ResumeDb): (r: seq<Resume>)
    requires ResumeDbValid(db)
    ensures forall i :: 0 <= i < |r| ==> r[i].id in db.records && db.records[r[i].id] == r[i]
    ensures forall k :: k in db.records ==> db.records[k] in r
    ensures forall i, j :: 0 <= i < j < |r| ==> r[i].id < r[j].id
  {
    var ks := KeysInOrder(db.records, db.nextId);
    var r := seq(|ks|, i requires 0 <= i < |ks| => db.records[ks[i]]);
    forall k | k in db.records
      ensures db.records[k] in r
    {
      assert k in ks;
      var i :| 0 <= i < |ks| && ks[i] == k;
      assert r[i] == db.records[k];
    }
    r
  }

  /** A document appended under the next id is listed last. */
  lemma StoredAfterInsert(db: ResumeDb, x: Resume)
    requires ResumeDbValid(db) && x.id == db.nextId && SchemaValid(x)
    ensures ResumeDbValid(ResumeDb(db.records[db.nextId := x], db.nextId + 1))
    ensures Stored(ResumeDb(db.records[db.nextId := x], db.nextId + 1)) == Stored(db) + [x]
  {
    var db' := ResumeDb(db.records[db.nextId := x], db.nextId + 1);
    KeysInOrderBelow(db.records, db.nextId, db.nextId, x);
    var ks := KeysInOrder(db.records, db.nextId);
    var ks' := KeysInOrder(db'.records, db'.nextId);
    assert ks' == ks + [db.nextId];
    var r, r' := Stored(db), Stored(db');
    assert |r'| == |r| + 1;
    forall i | 0 <= i < |r|
      ensures r'[i] == r[i]
    {
      assert ks'[i] == ks[i] && ks[i] < db.nextId;
    }
    assert r'[|r|] == x;
    assert r' == r + [x];
  }

  /**
   * A resume query: `status` when the status filter is given, `userId` in a set of owners when the
   * query restricts owners (`{ userId }` is the one-owner case, `{ $in: ids }` the search case).
   */
  datatype Query = Query(status: Option<string>, owners: Option<set<UserId>>)

  predicate Matches(q: Query, r: Resume)
  {
    && (q.status.None? || StatusName(r.status) == q.status.value)
    && (q.owners.None? || r.userId in q.owners.value)
  }

  /** The matching documents, in the order given. */
  function Select(rs: seq<Resume>, q: Query): (r: seq<Resume>)
    ensures |r| <= |rs|
    ensures forall x :: x in r <==> x in rs && Matches(q, x)
    ensures multiset(r) <= multiset(rs)
  {
    if |rs| == 0 then []
    else
      assert multiset(rs) == multiset{rs[0]} + multiset(rs[1..]) by { assert rs == [rs[0]] + rs[1..]; }
      if Matches(q, rs[0]) then [rs[0]] + Select(rs[1..], q) else Select(rs[1..], q)
  }

  lemma {:induction false} SelectConcat(a: seq<Resume>, b: seq<Resume>, q: Query)
    ensures Select(a + b, q) == Select(a, q) + Select(b, q)
  {
    if |a| == 0 {
      assert a + b == b;
    } else {
      assert (a + b)[0] == a[0] && (a + b)[1..] == a[1..] + b;
      SelectConcat(a[1..], b, q);
    }
  }

  predicate NewestFirstSorted(rs: seq<Resume>)
  {
    forall i, j :: 0 <= i < j < |rs| ==> rs[i].uploadedAt >= rs[j].uploadedAt
  }

  /** The head of a newest-first list is at least as new as everything after it. */
  lemma HeadIsNewest(rs: seq<Resume>)
    requires NewestFirstSorted(rs) && |rs| > 0
    ensures forall y :: y in rs[1..] ==> y.uploadedAt <= rs[0].uploadedAt
  {
    forall y | y in rs[1..]
      ensures y.uploadedAt <= rs[0].uploadedAt
    {
      var k :| 0 <= k < |rs[1..]| && rs[1..][k] == y;
      assert rs[k + 1] == y;
    }
  }

  /** Places `x` before the first document that is not newer than it. */
  function InsertByUpload(x: Resume, rs: seq<Resume>): (r: seq<Resume>)
    requires NewestFirstSorted(rs)
    ensures forall y :: y in r ==> y == x || y in rs
    ensures NewestFirstSorted(r)
    ensures multiset(r) == multiset(rs) + multiset{x}
  {
    if |rs| == 0 || x.uploadedAt >= rs[0].uploadedAt then [x] + rs
    else
      var tail := InsertByUpload(x, rs[1..]);
      assert rs == [rs[0]] + rs[1..];
      HeadIsNewest(rs);
      assert forall y :: y in tail ==> y.uploadedAt <= rs[0].uploadedAt;
      [rs[0]] + tail
  }

  /** `.sort({ uploadedAt: -1 })`: newest first, the same documents, ties in their original order. */
  function NewestFirst(rs: seq<Resume>): (r: seq<Resume>)
    ensures NewestFirstSorted(r)
    ensures multiset(r) == multiset(rs)
  {
    if |rs| == 0 then []
    else
      assert rs == [rs[0]] + rs[1..];
      InsertByUpload(rs[0], NewestFirst(rs[1..]))
  }

  /** `Resume.find(query).sort({ uploadedAt: -1 })`: exactly the matching stored documents, newest first. */
  function Find(db: ResumeDb, q: Query): (r: seq<Resume>)
    requires ResumeDbValid(db)
    ensures NewestFirstSorted(r)
    ensures forall x :: x in r <==> x in db.records.Values && Matches(q, x)
    ensures multiset(r) == multiset(Select(Stored(db), q))
  {
    var r := NewestFirst(Select(Stored(db), q));
    assert forall x :: x in r <==> x in multiset(r);
    assert forall x :: x in db.records.Values <==> x in Stored(db);
    r
  }

  /** `Resume.countDocuments(query)`. */
  function Count(db: ResumeDb, q: Query): (n: nat)
    requires ResumeDbValid(db)
    ensures n == |Find(db, q)|
  {
    assert |Find(db, q)| == |multiset(Find(db, q))|;
    |Select(Stored(db), q)|
  }

  /** Adding a document adds it to exactly the queries it matches and changes nothing else in them. */
  lemma FindAfterInsert(db: ResumeDb, x: Resume, q: Query)
    requires ResumeDbValid(db) && x.id == db.nextId && SchemaValid(x)
    ensures ResumeDbValid(ResumeDb(db.records[db.nextId := x], db.nextId + 1))
    ensures multiset(Find(ResumeDb(db.records[db.nextId := x], db.nextId + 1), q))
         == multiset(Find(db, q)) + (if Matches(q, x) then multiset{x} else multiset{})
  {
    StoredAfterInsert(db, x);
    SelectConcat(Stored(db), [x], q);
    assert Select([x], q) == (if Matches(q, x) then [x] else []);
  }

  /** The collection as the routes see it. */
  class ResumeStore {
    var records: map<ResumeId, Resume>
    var nextId: ResumeId

    function Db(): ResumeDb
      reads this
    {
      ResumeDb(records, nextId)
    }

    ghost predicate Valid()
      reads this
    {
      ResumeDbValid(Db())
    }

    constructor ()
      ensures Valid() && records == map[] && nextId == 0
    {
      records := map[];
      nextId := 0;
    }

    /** `resume.save()` on a new document: stored under the next id when it passes the schema check. */
    method Insert(r: Resume) returns (saved: bool, id: ResumeId)
      requires Valid()
      modifies this
      ensures Valid()
      ensures saved == SchemaValid(r) && id == old(nextId) && id !in old(records)
      ensures saved ==> records == old(records)[id := r.(id := id)] && nextId == old(nextId) + 1
      ensures !saved ==> records == old(records) && nextId == old(nextId)
    {
      id := nextId;
      saved := SchemaValid(r);
      if saved {
        records := records[id := r.(id := id)];
        nextId := nextId + 1;
      }
    }

    /** `resume.save()` on a stored document: it replaces the stored one when it passes the schema check. */
    method Save(r: Resume) returns (saved: bool)
      requires Valid() && r.id in records
      modifies this
      ensures Valid()
      ensures saved == SchemaValid(r)
      ensures saved ==> records == old(records)[r.id := r] && nextId == old(nextId)
      ensures !saved ==> records == old(records) && nextId == old(nextId)
    {
      saved := SchemaValid(r);
      if saved {
        records := records[r.id := r];
      }
    }

    /** `Resume.findByIdAndDelete(id)`. */
    method Remove(id: ResumeId)
      requires Valid() && id in records
      modifies this
      ensures Valid()
      ensures records == old(records) - {id} && nextId == old(nextId)
    {
      records := records - {id};
    }
  }
}
