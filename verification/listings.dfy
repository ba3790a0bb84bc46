/** The two shapes of listing the handlers build: filter, sort newest first (by
    `createdAt`, which is table order reversed) or by a name, then paginate. */
module Listings {
  import opened Wrappers
  import opened Text
  import opened Tables
  import opened Sorting
  import opened Pagination

  /** `find(query).sort({ createdAt: -1 }).skip(..).limit(..)` with `countDocuments(query)`. */
  function NewestFirst<T(==)>(t: Table<T>, keep: T -> bool, page: int, limit: int): (r: Option<Listing<Row<T>>>)
    ensures r.None? <==> Skip(page, limit) < 0
    ensures r.Some? ==> r.value.pagination == PageInfo(page, limit, |Filter(t, keep)|, PageCount(|Filter(t, keep)|, limit))
    ensures r.Some? ==> forall row :: row in r.value.items ==> row in t && keep(row.rec)
    ensures r.Some? ==> |r.value.items| <= |Filter(t, keep)|
    ensures r.Some? ==> r.value.items == Page(Reverse(Filter(t, keep)), page, limit)
  {
    var matches := Reverse(Filter(t, keep));
    var r := Paginate(matches, page, limit);
    if r.Some? then
      assert forall row :: row in r.value.items ==> row in matches;
      r
    else r
  }

  /** With a filter every row passes, one page large enough lists the whole table,
      latest insert first. */
  lemma NewestFirstWholeTable<T>(t: Table<T>, keep: T -> bool, limit: int)
    requires forall row :: row in t ==> keep(row.rec)
    requires limit >= |t| && limit >= 1
    ensures NewestFirst(t, keep, 1, limit).Some?
    ensures NewestFirst(t, keep, 1, limit).value.items == Reverse(t)
  {
    FilterAll(t, keep);
  }

  function NameKey<T>(key: T -> string): Row<T> -> string {
    (row: Row<T>) => key(row.rec)
  }

  /** Rows sorted by the name key have their records' names in order. */
  lemma SortedByName<T>(rows: seq<Row<T>>, key: T -> string)
    requires SortedBy(rows, NameKey(key))
    ensures forall i, j :: 0 <= i < j < |rows| ==> LexLessEq(key(rows[i].rec), key(rows[j].rec))
  {
    forall i, j | 0 <= i < j < |rows| ensures LexLessEq(key(rows[i].rec), key(rows[j].rec)) {
      assert NameKey(key)(rows[i]) == key(rows[i].rec) && NameKey(key)(rows[j]) == key(rows[j].rec);
    }
  }

  /** `find(query).sort({ name: 1 }).skip(..).limit(..)` with `countDocuments(query)`. */
  function ByName<T(==)>(t: Table<T>, keep: T -> bool, key: T -> string, page: int, limit: int): (r: Option<Listing<Row<T>>>)
    ensures r.None? <==> Skip(page, limit) < 0
    ensures r.Some? ==> r.value.pagination == PageInfo(page, limit, |Filter(t, keep)|, PageCount(|Filter(t, keep)|, limit))
    ensures r.Some? ==> forall row :: row in r.value.items ==> row in t && keep(row.rec)
    ensures r.Some? ==> SortedBy(r.value.items, NameKey(key))
    ensures r.Some? ==> r.value.items == Page(SortBy(Filter(t, keep), NameKey(key)), page, limit)
  {
    var filtered := Filter(t, keep);
    var matches := SortBy(filtered, NameKey(key));
    var r := Paginate(matches, page, limit);
    if r.Some? then
      forall row | row in r.value.items ensures row in t && keep(row.rec) {
        assert row in multiset(matches);
      }
      PageKeepsOrder(matches, page, limit, NameKey(key));
      r
    else r
  }

  /** Over a uniquely indexed name, `.sort({ name: 1 })` has one possible result: any
      name-ordered arrangement of the matches gives the window `ByName` lists. */
  lemma ByNameOrderForced<T>(t: Table<T>, keep: T -> bool, key: T -> string, page: int, limit: int, other: seq<Row<T>>)
    requires UniqueBy(t, key) && Skip(page, limit) >= 0
    requires SortedBy(other, NameKey(key)) && multiset(other) == multiset(Filter(t, keep))
    ensures ByName(t, keep, key, page, limit).Some?
    ensures ByName(t, keep, key, page, limit).value.items == Page(other, page, limit)
  {
    var matches := Filter(t, keep);
    FilterUnique(t, keep, key);
    assert DistinctKeys(matches, NameKey(key)) by {
      forall i, j | 0 <= i < j < |matches| ensures NameKey(key)(matches[i]) != NameKey(key)(matches[j]) {
        assert key(matches[i].rec) != key(matches[j].rec);
      }
    }
    SortByIsTheOrder(matches, other, NameKey(key));
  }

  /** A window of a sorted sequence is sorted. */
  lemma PageKeepsOrder<T>(s: seq<T>, page: int, limit: int, key: T -> string)
    requires Skip(page, limit) >= 0 && SortedBy(s, key)
    ensures SortedBy(Page(s, page, limit), key)
  {
    var r := Page(s, page, limit);
    var k := Skip(page, limit);
    forall i, j | 0 <= i < j < |r| ensures LexLessEq(key(r[i]), key(r[j])) {
      assert r[i] == s[k + i] && r[j] == s[k + j];
    }
  }
}
