/** The pagination every listing shares: `skip = (page - 1) * limit`, MongoDB's
    `.skip(skip).limit(limit)` over the sorted matches, and
    `pages = Math.ceil(total / limit)`. The page and limit are the integers `parseInt`
    produced; nothing confines them to positive values. */
module Pagination {
  import opened Wrappers

  /** The `pagination` object of a listing response. `pages` is `None` where
      `Math.ceil` yields `Infinity` or `NaN` (a limit of 0), which JSON writes as `null`. */
  datatype PageInfo = PageInfo(page: int, limit: int, total: nat, pages: Option<int>)

  /** How many matching documents precede the page; MongoDB refuses a negative value. */
  function Skip(page: int, limit: int): int {
    (page - 1) * limit
  }

  /** `Math.ceil(total / limit)`: the least integer not below the quotient. */
  function PageCount(total: nat, limit: int): (pages: Option<int>)
    ensures pages.None? <==> limit == 0
    ensures limit > 0 ==> pages.value >= 0 && pages.value * limit >= total && (pages.value - 1) * limit < total
    ensures limit < 0 ==> pages.value <= 0 && pages.value * limit <= total && (pages.value - 1) * limit > total
    ensures limit > 0 ==> (total == 0 <==> pages.value == 0)
  {
    if limit == 0 then None
    else if limit > 0 then
      var q := (total + limit - 1) / limit;
      var rem := (total + limit - 1) % limit;
      assert q * limit + rem == total + limit - 1;
      assert (q - 1) * limit == q * limit - limit;
      Some(q)
    else
      var q := total / -limit;
      assert q * -limit + total % -limit == total;
      assert (-q - 1) * limit == q * -limit - limit;
      Some(-q)
  }

  /** How many documents `.limit(limit)` lets through: 0 means no limit, and a negative
      limit returns a single batch of its absolute value. */
  function Take(limit: int, available: nat): (n: nat)
    ensures n <= available
    ensures limit == 0 ==> n == available
    ensures limit != 0 ==> n <= (if limit > 0 then limit else -limit)
    ensures limit != 0 ==> n == available || n == (if limit > 0 then limit else -limit)
  {
    var cap := if limit > 0 then limit else -limit;
    if limit == 0 || available < cap then available else cap
  }

  /** `.skip(skip).limit(limit)` over the sorted matches, for a skip MongoDB accepts. */
  function Page<T>(items: seq<T>, page: int, limit: int): (r: seq<T>)
    requires Skip(page, limit) >= 0
    ensures Skip(page, limit) >= |items| ==> r == []
    ensures Skip(page, limit) < |items| ==> |r| == Take(limit, |items| - Skip(page, limit))
    ensures forall i :: 0 <= i < |r| ==> Skip(page, limit) + i < |items| && r[i] == items[Skip(page, limit) + i]
  {
    var skip := Skip(page, limit);
    if skip >= |items| then []
    else items[skip..skip + Take(limit, |items| - skip)]
  }

  /** Every document is listed on exactly one page: page `i / limit + 1`, at position
      `i % limit`. */
  lemma ItemOnItsPage<T>(items: seq<T>, i: nat, limit: int)
    requires i < |items| && limit >= 1
    ensures var p := i / limit + 1;
      && Skip(p, limit) + i % limit == i
      && i % limit < |Page(items, p, limit)|
      && Page(items, p, limit)[i % limit] == items[i]
  {
    var p := i / limit + 1;
    assert Skip(p, limit) == (i / limit) * limit;
    assert (i / limit) * limit + i % limit == i;
  }

  /** With a positive limit, a page holds documents exactly when its number lies between
      1 and the page count. */
  lemma PageNonEmptyIff<T>(items: seq<T>, page: int, limit: int)
    requires page >= 1 && limit >= 1
    ensures |Page(items, page, limit)| > 0 <==> page <= PageCount(|items|, limit).value
  {
    var pages := PageCount(|items|, limit).value;
    if page <= pages {
      MulMonotone(page - 1, pages - 1, limit);
    } else {
      MulMonotone(pages, page - 1, limit);
    }
  }

  /** With a positive limit, a page number below 1 means a negative skip. */
  lemma PageBelowOneRejected(page: int, limit: int)
    requires page < 1 && limit >= 1
    ensures Skip(page, limit) < 0
  {
    MulMonotone(0, 1 - page, limit);
    assert Skip(page, limit) == -((1 - page) * limit);
  }

  lemma MulMonotone(a: int, b: int, c: int)
    requires 0 <= a <= b && c >= 0
    ensures a * c <= b * c
  {
    assert b * c - a * c == (b - a) * c;
  }

  /** A whole listing response: the page of documents and its `pagination` object. */
  datatype Listing<T> = Listing(items: seq<T>, pagination: PageInfo)

  /** The listing, or `None` where MongoDB rejects the negative skip and the handler's
      `catch` answers 500. */
  function Paginate<T>(matches: seq<T>, page: int, limit: int): (r: Option<Listing<T>>)
    ensures r.None? <==> Skip(page, limit) < 0
    ensures r.Some? ==> r.value.pagination == PageInfo(page, limit, |matches|, PageCount(|matches|, limit))
    ensures r.Some? ==> r.value.items == Page(matches, page, limit)
  {
    if Skip(page, limit) < 0 then None
    else Some(Listing(Page(matches, page, limit), PageInfo(page, limit, |matches|, PageCount(|matches|, limit))))
  }

  /** `limit=0` lists every match on every page, and reports no page count. */
  lemma NoLimitListsAll<T>(matches: seq<T>, page: int)
    ensures Paginate(matches, page, 0).Some?
    ensures Paginate(matches, page, 0).value.items == matches
    ensures Paginate(matches, page, 0).value.pagination.pages.None?
  {
    assert Skip(page, 0) == 0;
  }
}
