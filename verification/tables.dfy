/** A MongoDB collection as an in-memory table: rows with string ids, kept in insertion
    order (which is also `createdAt` order). */
module Tables {
  import opened Wrappers

  /** A document `_id`. */
  type Id = string

  datatype Row<T> = Row(id: Id, rec: T)

  type Table<T> = seq<Row<T>>

  function Ids<T(==)>(t: Table<T>): set<Id> {
    set r | r in t :: r.id
  }

  predicate DistinctIds<T(==)>(t: Table<T>) {
    forall i, j :: 0 <= i < j < |t| ==> t[i].id != t[j].id
  }

  /** No two rows share `key` of their records: a unique index. */
  predicate UniqueBy<T(==)>(t: Table<T>, key: T -> string) {
    forall i, j :: 0 <= i < j < |t| ==> key(t[i].rec) != key(t[j].rec)
  }

  function MaxIdLength<T(==)>(t: Table<T>): (n: nat)
    ensures forall r :: r in t ==> |r.id| <= n
  {
    if t == [] then 0
    else
      var m := MaxIdLength(t[1..]);
      if |t[0].id| > m then |t[0].id| else m
  }

  /** A new `_id`: longer than every id in use, hence unused. */
  function FreshId<T(==)>(t: Table<T>): (id: Id)
    ensures id !in Ids(t)
  {
    seq(MaxIdLength(t) + 1, _ => '0')
  }

  /** `findById`: the record stored under `id`, if any. */
  function Find<T(==)>(t: Table<T>, id: Id): (r: Option<T>)
    ensures r.Some? <==> id in Ids(t)
    ensures r.Some? ==> Row(id, r.value) in t
  {
    if t == [] then None
    else if t[0].id == id then Some(t[0].rec)
    else Find(t[1..], id)
  }

  /** In a table with distinct ids, two rows with one id are one row. */
  lemma SameIdSameRow<T>(t: Table<T>, a: Row<T>, b: Row<T>)
    requires DistinctIds(t) && a in t && b in t && a.id == b.id
    ensures a == b
  {
    var i :| 0 <= i < |t| && t[i] == a;
    var j :| 0 <= j < |t| && t[j] == b;
    assert t[i].id == t[j].id;
    assert i == j;
  }

  /** With distinct ids, `findById` returns the one record stored under the id. */
  lemma FindUnique<T>(t: Table<T>, id: Id, rec: T)
    requires DistinctIds(t) && Row(id, rec) in t
    ensures Find(t, id) == Some(rec)
  {
    SameIdSameRow(t, Row(id, rec), Row(id, Find(t, id).value));
  }

  /** `findOne(filter)`: the first row whose record satisfies `p`. */
  function FindFirst<T(==)>(t: Table<T>, p: T -> bool): (r: Option<Row<T>>)
    ensures r.None? <==> forall row :: row in t ==> !p(row.rec)
    ensures r.Some? ==> r.value in t && p(r.value.rec)
  {
    if t == [] then None
    else if p(t[0].rec) then Some(t[0])
    else FindFirst(t[1..], p)
  }

  /** `find(filter)` before sorting: the matching rows in table order. */
  function Filter<T(==)>(t: Table<T>, p: T -> bool): (r: Table<T>)
    ensures forall row :: row in r ==> row in t && p(row.rec)
    ensures forall row :: row in t && p(row.rec) ==> row in r
    ensures |r| <= |t|
    ensures DistinctIds(t) ==> DistinctIds(r)
  {
    if t == [] then []
    else
      var rest := Filter(t[1..], p);
      if p(t[0].rec) then
        assert forall row :: row in rest ==> row in t[1..];
        if DistinctIds(t) then
          DistinctIdsTail(t);
          ConsDistinct(t, rest);
          [t[0]] + rest
        else [t[0]] + rest
      else if DistinctIds(t) then
        DistinctIdsTail(t);
        rest
      else rest
  }

  /** The first row of a table with distinct ids, put before rows of the rest with
      distinct ids, keeps them distinct. */
  lemma ConsDistinct<T>(t: Table<T>, rest: Table<T>)
    requires t != [] && DistinctIds(t) && DistinctIds(rest)
    requires forall row :: row in rest ==> row in t[1..]
    ensures DistinctIds([t[0]] + rest)
  {
    HeadIdFresh(t);
    var r := [t[0]] + rest;
    forall i, j | 0 <= i < j < |r| ensures r[i].id != r[j].id {
      if i == 0 {
        assert r[j] in t[1..];
        assert r[j].id in Ids(t[1..]);
      } else {
        assert r[i] == rest[i - 1] && r[j] == rest[j - 1];
      }
    }
  }

  /** Filtering a table with one more row at the end. */
  lemma {:induction false} FilterAppend<T>(t: Table<T>, row: Row<T>, p: T -> bool)
    ensures Filter(t + [row], p) == Filter(t, p) + (if p(row.rec) then [row] else [])
  {
    if t == [] {
      assert [] + [row] == [row];
    } else {
      assert (t + [row])[1..] == t[1..] + [row];
      FilterAppend(t[1..], row, p);
    }
  }

  /** The same filter keeps every row of a table satisfying a stronger condition. */
  lemma {:induction false} FilterAll<T>(t: Table<T>, p: T -> bool)
    requires forall row :: row in t ==> p(row.rec)
    ensures Filter(t, p) == t
  {
    if t != [] {
      FilterAll(t[1..], p);
    }
  }

  /** A filter over a uniquely indexed table keeps the index unique. */
  lemma {:induction false} FilterUnique<T>(t: Table<T>, p: T -> bool, key: T -> string)
    requires UniqueBy(t, key)
    ensures UniqueBy(Filter(t, p), key)
  {
    if t != [] {
      UniqueTail(t, key);
      FilterUnique(t[1..], p, key);
      if p(t[0].rec) {
        var rest := Filter(t[1..], p);
        assert Filter(t, p) == [t[0]] + rest;
        HeadKeyFresh(t, rest, key);
        UniqueCons(t[0], rest, key);
      }
    }
  }

  lemma UniqueTail<T>(t: Table<T>, key: T -> string)
    requires t != [] && UniqueBy(t, key)
    ensures UniqueBy(t[1..], key)
  {
    var tail := t[1..];
    forall i, j | 0 <= i < j < |tail| ensures key(tail[i].rec) != key(tail[j].rec) {
      assert tail[i] == t[i + 1] && tail[j] == t[j + 1];
    }
  }

  /** Rows drawn from the tail of a uniquely indexed table differ from its head in key. */
  lemma HeadKeyFresh<T>(t: Table<T>, rest: Table<T>, key: T -> string)
    requires t != [] && UniqueBy(t, key)
    requires forall row :: row in rest ==> row in t[1..]
    ensures forall j :: 0 <= j < |rest| ==> key(t[0].rec) != key(rest[j].rec)
  {
    forall j | 0 <= j < |rest| ensures key(t[0].rec) != key(rest[j].rec) {
      assert rest[j] in t[1..];
      var k :| 0 <= k < |t[1..]| && t[1..][k] == rest[j];
      assert t[k + 1] == rest[j];
    }
  }

  lemma UniqueCons<T>(x: Row<T>, rest: Table<T>, key: T -> string)
    requires UniqueBy(rest, key)
    requires forall j :: 0 <= j < |rest| ==> key(x.rec) != key(rest[j].rec)
    ensures UniqueBy([x] + rest, key)
  {
    var r := [x] + rest;
    forall i, j | 0 <= i < j < |r| ensures key(r[i].rec) != key(r[j].rec) {
      assert r[j] == rest[j - 1];
      if i > 0 { assert r[i] == rest[i - 1]; }
    }
  }

  /** The document stored under `id` replaced by `rec`; every other row is untouched. */
  function Replace<T(==)>(t: Table<T>, id: Id, rec: T): (r: Table<T>)
    ensures |r| == |t|
    ensures forall i :: 0 <= i < |t| ==> r[i] == (if t[i].id == id then Row(id, rec) else t[i])
  {
    seq(|t|, i requires 0 <= i < |t| => if t[i].id == id then Row(id, rec) else t[i])
  }

  /** `findByIdAndDelete`: every row with `id` removed, the rest kept in order. */
  function Remove<T(==)>(t: Table<T>, id: Id): (r: Table<T>)
    ensures forall row :: row in r ==> row in t && row.id != id
    ensures forall row :: row in t && row.id != id ==> row in r
    ensures Ids(r) == Ids(t) - {id}
    ensures |r| <= |t|
  {
    if t == [] then []
    else
      var rest := Remove(t[1..], id);
      if t[0].id == id then rest else [t[0]] + rest
  }

  /** Inserting under an unused id keeps the ids distinct. */
  lemma AppendFresh<T>(t: Table<T>, row: Row<T>)
    requires DistinctIds(t) && row.id !in Ids(t)
    ensures DistinctIds(t + [row])
  {
    forall i, j | 0 <= i < j < |t + [row]| ensures (t + [row])[i].id != (t + [row])[j].id {
      if j == |t| { assert t[i] in t; }
    }
  }

  /** Inserting a record whose key is unused keeps the index unique. */
  lemma AppendUnique<T>(t: Table<T>, row: Row<T>, key: T -> string)
    requires UniqueBy(t, key)
    requires forall r :: r in t ==> key(r.rec) != key(row.rec)
    ensures UniqueBy(t + [row], key)
  {
    forall i, j | 0 <= i < j < |t + [row]| ensures key((t + [row])[i].rec) != key((t + [row])[j].rec) {
      if j == |t| { assert t[i] in t; }
    }
  }

  /** Replacing a record keeps the ids; it keeps a unique index when no other row holds
      the new key. */
  lemma ReplaceKeeps<T>(t: Table<T>, id: Id, rec: T, key: T -> string)
    requires DistinctIds(t) && UniqueBy(t, key)
    requires forall r :: r in t && r.id != id ==> key(r.rec) != key(rec)
    ensures DistinctIds(Replace(t, id, rec)) && UniqueBy(Replace(t, id, rec), key)
    ensures Ids(Replace(t, id, rec)) == Ids(t)
  {
    var r := Replace(t, id, rec);
    forall i, j | 0 <= i < j < |r| ensures key(r[i].rec) != key(r[j].rec) {
      assert t[i] in t && t[j] in t;
    }
    ReplaceKeepsIds(t, id, rec);
  }

  /** A save leaves the set of ids as it was. */
  lemma ReplaceKeepsIds<T>(t: Table<T>, id: Id, rec: T)
    ensures Ids(Replace(t, id, rec)) == Ids(t)
  {
    var r := Replace(t, id, rec);
    assert forall x :: x in Ids(r) ==> x in Ids(t) by {
      forall x | x in Ids(r) ensures x in Ids(t) {
        var row :| row in r && row.id == x;
        var i :| 0 <= i < |r| && r[i] == row;
        assert t[i] in t;
      }
    }
    assert forall x :: x in Ids(t) ==> x in Ids(r) by {
      forall x | x in Ids(t) ensures x in Ids(r) {
        var row :| row in t && row.id == x;
        var i :| 0 <= i < |t| && t[i] == row;
        assert r[i] in r;
      }
    }
  }

  /** Replacing a record by one satisfying `ok` keeps `ok` true of every record. */
  lemma ReplaceKeepsAll<T>(t: Table<T>, id: Id, rec: T, ok: T -> bool)
    requires ok(rec) && forall r :: r in t ==> ok(r.rec)
    ensures forall r :: r in Replace(t, id, rec) ==> ok(r.rec)
  {
    var u := Replace(t, id, rec);
    forall r | r in u ensures ok(r.rec) {
      var i :| 0 <= i < |u| && u[i] == r;
      assert t[i] in t;
    }
  }

  /** Removing rows keeps the ids distinct and a unique index unique. */
  lemma {:induction false} RemoveKeeps<T>(t: Table<T>, id: Id, key: T -> string)
    requires DistinctIds(t) && UniqueBy(t, key)
    ensures DistinctIds(Remove(t, id)) && UniqueBy(Remove(t, id), key)
  {
    if t != [] {
      RemoveKeeps(t[1..], id, key);
      var rest := Remove(t[1..], id);
      if t[0].id != id {
        var r := [t[0]] + rest;
        forall j | 1 <= j < |r| ensures r[0].id != r[j].id && key(r[0].rec) != key(r[j].rec) {
          assert r[j] in rest;
          assert r[j] in t[1..];
          var k :| 0 <= k < |t[1..]| && t[1..][k] == r[j];
          assert t[k + 1] == r[j];
        }
      }
    }
  }

  /** The rows of `t` in reverse: a `sort({ createdAt: -1 })` over insertion order. */
  function Reverse<T(==)>(t: seq<T>): (r: seq<T>)
    ensures |r| == |t|
    ensures forall i :: 0 <= i < |t| ==> r[i] == t[|t| - 1 - i]
  {
    seq(|t|, i requires 0 <= i < |t| => t[|t| - 1 - i])
  }

  /** Reversing twice gives the table back, and reversing keeps every row, with its
      multiplicity. */
  lemma ReverseProperties<T>(t: seq<T>)
    ensures Reverse(Reverse(t)) == t
    ensures multiset(Reverse(t)) == multiset(t)
    ensures forall x :: x in Reverse(t) <==> x in t
  {
    ReverseMultiset(t);
    forall x ensures x in Reverse(t) <==> x in t {
      assert x in Reverse(t) <==> x in multiset(Reverse(t));
      assert x in t <==> x in multiset(t);
    }
  }

  lemma {:induction false} ReverseMultiset<T>(t: seq<T>)
    ensures multiset(Reverse(t)) == multiset(t)
  {
    if t != [] {
      var init := t[..|t| - 1];
      ReverseMultiset(init);
      assert Reverse(t) == [t[|t| - 1]] + Reverse(init);
      assert t == init + [t[|t| - 1]];
    }
  }

  /** After a save, `findById` gives the new record under the saved id, when it is in use,
      and what it gave before under every other id. */
  lemma {:induction false} FindAfterReplace<T>(t: Table<T>, id: Id, rec: T, x: Id)
    ensures Find(Replace(t, id, rec), x) == if x == id && id in Ids(t) then Some(rec) else Find(t, x)
  {
    if t != [] {
      assert Replace(t, id, rec)[1..] == Replace(t[1..], id, rec);
      FindAfterReplace(t[1..], id, rec, x);
      IdsCons(t);
    }
  }

  /** `countDocuments({ _id: { $in: ids } })`: how many rows have an id listed in `ids`. */
  function CountIn<T(==)>(t: Table<T>, ids: seq<Id>): (n: nat)
    ensures n <= |t|
  {
    if t == [] then 0
    else (if t[0].id in ids then 1 else 0) + CountIn(t[1..], ids)
  }

  /** No id is listed twice. */
  predicate NoRepeats(ids: seq<Id>) {
    forall i, j :: 0 <= i < j < |ids| ==> ids[i] != ids[j]
  }

  /** The ids of a table are its first row's id and the ids of the rest. */
  lemma IdsCons<T>(t: Table<T>)
    requires t != []
    ensures Ids(t) == {t[0].id} + Ids(t[1..])
  {
    assert t == [t[0]] + t[1..];
  }

  /** With distinct ids, the first row's id does not recur. */
  lemma HeadIdFresh<T>(t: Table<T>)
    requires t != [] && DistinctIds(t)
    ensures t[0].id !in Ids(t[1..])
  {
    forall row | row in t[1..] ensures row.id != t[0].id {
      var k :| 0 <= k < |t[1..]| && t[1..][k] == row;
      assert t[k + 1] == row;
    }
  }

  /** The rest of a table with distinct ids has distinct ids. */
  lemma DistinctIdsTail<T>(t: Table<T>)
    requires t != [] && DistinctIds(t)
    ensures DistinctIds(t[1..])
  {
    var rest := t[1..];
    forall i, j | 0 <= i < j < |rest| ensures rest[i].id != rest[j].id {
      assert rest[i] == t[i + 1] && rest[j] == t[j + 1];
    }
  }

  /** Adding a fresh element to a set adds one to its intersection with `b` exactly when
      `b` holds it. */
  lemma IntersectAdd(a: set<Id>, x: Id, b: set<Id>)
    requires x !in a
    ensures |({x} + a) * b| == |a * b| + (if x in b then 1 else 0)
  {
    if x in b {
      assert ({x} + a) * b == (a * b) + {x};
    } else {
      assert ({x} + a) * b == a * b;
    }
  }

  /** With distinct row ids, the count is the number of listed ids in use. */
  lemma {:induction false} CountInIsIntersection<T>(t: Table<T>, ids: seq<Id>)
    requires DistinctIds(t)
    ensures CountIn(t, ids) == |Ids(t) * set x | x in ids|
  {
    if t == [] {
      assert Ids(t) == {};
    } else {
      DistinctIdsTail(t);
      CountInIsIntersection(t[1..], ids);
      IdsCons(t);
      HeadIdFresh(t);
      IntersectAdd(Ids(t[1..]), t[0].id, set x | x in ids);
    }
  }

  /** A list has as many distinct elements as entries exactly when nothing repeats. */
  lemma {:induction false} DistinctCount(ids: seq<Id>)
    ensures |set x | x in ids| <= |ids|
    ensures |set x | x in ids| == |ids| <==> NoRepeats(ids)
  {
    if ids != [] {
      var rest := ids[1..];
      DistinctCount(rest);
      assert (set x | x in ids) == {ids[0]} + (set x | x in rest);
      if ids[0] in rest {
        assert (set x | x in ids) == (set x | x in rest);
        var k :| 0 <= k < |rest| && rest[k] == ids[0];
        assert ids[0] == ids[k + 1];
      } else {
        if NoRepeats(rest) {
          forall i, j | 0 <= i < j < |ids| ensures ids[i] != ids[j] {
            if i == 0 { assert ids[j] == rest[j - 1]; }
            else { assert ids[i] == rest[i - 1] && ids[j] == rest[j - 1]; }
          }
        }
        if NoRepeats(ids) {
          forall i, j | 0 <= i < j < |rest| ensures rest[i] != rest[j] {
            assert ids[i + 1] != ids[j + 1];
          }
        }
      }
    }
  }

  /** A subset is no larger than the set. */
  lemma SubsetSize(a: set<Id>, b: set<Id>)
    requires a <= b
    ensures |a| <= |b|
    decreases a
  {
    if a != {} {
      var x :| x in a;
      SubsetSize(a - {x}, b - {x});
      assert a == (a - {x}) + {x};
      assert b == (b - {x}) + {x};
    }
  }

  /** A subset of a finite set as large as the set is the set. */
  lemma SubsetSameSize(a: set<Id>, b: set<Id>)
    requires a <= b && |a| == |b|
    ensures a == b
    decreases a
  {
    if a != {} {
      var x :| x in a;
      assert a == (a - {x}) + {x};
      assert b == (b - {x}) + {x};
      SubsetSameSize(a - {x}, b - {x});
    }
  }

  /** The count of rows named by `ids` equals the length of `ids` exactly when every id is
      in use and none is listed twice. */
  lemma CountInMatchesAll<T>(t: Table<T>, ids: seq<Id>)
    requires DistinctIds(t)
    ensures CountIn(t, ids) == |ids| <==> NoRepeats(ids) && forall x :: x in ids ==> x in Ids(t)
  {
    var listed := set x | x in ids;
    CountInIsIntersection(t, ids);
    DistinctCount(ids);
    assert Ids(t) * listed <= listed;
    SubsetSize(Ids(t) * listed, listed);
    if CountIn(t, ids) == |ids| {
      SubsetSameSize(Ids(t) * listed, listed);
      forall x | x in ids ensures x in Ids(t) {
        assert x in listed;
      }
    }
    if NoRepeats(ids) && forall x :: x in ids ==> x in Ids(t) {
      assert forall x :: x in listed ==> x in ids && x in Ids(t);
      assert Ids(t) * listed == listed;
    }
  }
}
