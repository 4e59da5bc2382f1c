/// The pagination every listing handler shares: `page` and `limit` from the
/// query string (defaults 1 and 10), `offset = (page - 1) * limit`, the
/// `LIMIT $n OFFSET $m` window Postgres cuts from the ordered rows, and
/// `pages: Math.ceil(total / limit)` in the reply.
module Pagination {
  import opened Common

  const DefaultPage: int := 1
  const DefaultLimit: int := 10

  /** `const { page = 1, limit = 10 } = req.query`: a default replaces only a
      missing field. */
  function PageOrDefault(page: Option<int>): (p: int)
    ensures page.None? ==> p == DefaultPage
    ensures page.Some? ==> p == page.value
  {
    if page.Some? then page.value else DefaultPage
  }

  function LimitOrDefault(limit: Option<int>): (l: int)
    ensures limit.None? ==> l == DefaultLimit
    ensures limit.Some? ==> l == limit.value
  {
    if limit.Some? then limit.value else DefaultLimit
  }

  /** `(page - 1) * limit`. */
  function Offset(page: int, limit: int): int {
    (page - 1) * limit
  }

  /** Postgres refuses a negative LIMIT or OFFSET, and the handler's catch
      answers 500. */
  predicate WindowAccepted(page: int, limit: int) {
    limit >= 0 && Offset(page, limit) >= 0
  }

  /** `LIMIT limit OFFSET offset` on rows already in their ORDER BY order. */
  function Window<T>(rows: seq<T>, offset: nat, limit: nat): (r: seq<T>)
    ensures |r| == if offset >= |rows| then 0 else Min(limit, |rows| - offset)
    ensures forall k :: 0 <= k < |r| ==> offset + k < |rows| && r[k] == rows[offset + k]
  {
    if offset >= |rows| then [] else rows[offset..Min(offset + limit, |rows|)]
  }

  /** `Math.ceil(total / limit)`. A zero limit divides to Infinity (or NaN
      when the total is zero too), which `res.json` sends as null. */
  function Pages(total: nat, limit: nat): (p: Option<nat>)
    ensures p.Some? <==> limit > 0
  {
    if limit == 0 then None else Some((total + limit - 1) / limit)
  }

  lemma MulMonotone(a: nat, b: nat, c: nat)
    requires a <= b
    ensures a * c <= b * c
  {
  }

  /** The page count is the least number of pages of `limit` rows that holds
      `total` rows. */
  lemma PagesIsLeastCover(total: nat, limit: nat)
    requires limit > 0
    ensures Pages(total, limit).value * limit >= total
    ensures forall k: nat :: k * limit >= total ==> k >= Pages(total, limit).value
  {
    var p := Pages(total, limit).value;
    var r := (total + limit - 1) % limit;
    assert p * limit + r == total + limit - 1;
    forall k: nat | k < p ensures k * limit < total {
      MulMonotone(k, p - 1, limit);
      assert (p - 1) * limit == p * limit - limit;
    }
  }

  /** Row `k` of the ordered listing is shown on page `k / limit + 1`, at
      position `k % limit`, and that page is within the page count. */
  lemma RowOnItsPage<T>(rows: seq<T>, limit: nat, k: nat)
    requires limit > 0 && k < |rows|
    ensures var page := k / limit + 1;
      && 1 <= page <= Pages(|rows|, limit).value
      && WindowAccepted(page, limit)
      && var w := Window(rows, Offset(page, limit), limit);
         k % limit < |w| && w[k % limit] == rows[k]
  {
    var page := k / limit + 1;
    assert Offset(page, limit) == (k / limit) * limit;
    assert (k / limit) * limit + k % limit == k;
    PagesIsLeastCover(|rows|, limit);
    var p := Pages(|rows|, limit).value;
    if p < page {
      MulMonotone(p, k / limit, limit);
    }
  }

  /** The `pagination` object and the rows of one page. */
  datatype Page<T> = Page(items: seq<T>, page: int, limit: int, total: nat, pages: Option<nat>)

  /** One page of the ordered rows, with the total the count query found;
      None when Postgres refuses the window. */
  function Paginate<T>(ordered: seq<T>, total: nat, page: int, limit: int): (r: Option<Page<T>>)
    ensures r.None? <==> !WindowAccepted(page, limit)
    ensures r.Some? ==> r.value == Page(Window(ordered, Offset(page, limit), limit), page, limit, total, Pages(total, limit))
  {
    if !WindowAccepted(page, limit) then None
    else Some(Page(Window(ordered, Offset(page, limit), limit), page, limit, total, Pages(total, limit)))
  }
}
