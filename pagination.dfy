/**
 * `GetPaginationParams` (internal/utils/pagination.go) and the page number the
 * list use cases report back, `offset/limit + 1`.
 *
 * A query parameter is `None` when the key is absent from the URL; a present
 * key carries its raw text, which `strconv.Atoi` reads with its error ignored.
 */
module Pagination {
  import opened Wrappers
  import opened Strconv

  datatype Params = Params(page: int, limit: int, offset: int)

  const DefaultLimit: int := 10
  const MaxLimit: int := 100

  /** `c.DefaultQuery(key, def)`: the default only when the key is absent. */
  function DefaultQuery(q: Option<string>, def: string): string {
    match q
    case Some(v) => v
    case None => def
  }

  /** Go's integer division, which truncates toward zero. */
  function Quo(a: int, b: int): int
    requires b != 0
  {
    if (a >= 0) == (b > 0) then (if a >= 0 then a / b else -a / -b)
    else -(if a >= 0 then a / -b else -a / b)
  }

  /** `utils.GetPaginationParams`. */
  function GetPaginationParams(pageQuery: Option<string>, limitQuery: Option<string>): (p: Params)
    ensures p.page >= 1
    ensures 1 <= p.limit <= MaxLimit
    ensures p.offset >= 0 && p.offset % p.limit == 0
    ensures p.offset / p.limit == p.page - 1
  {
    var page0 := AtoiOrZero(DefaultQuery(pageQuery, "1"));
    var limit0 := AtoiOrZero(DefaultQuery(limitQuery, "10"));
    var page := if page0 < 1 then 1 else page0;
    var limit := if limit0 < 1 then DefaultLimit else if limit0 > MaxLimit then MaxLimit else limit0;
    MultipleOf(page - 1, limit);
    Params(page, limit, (page - 1) * limit)
  }

  /** Dividing a multiple of `l` by `l` is exact. */
  lemma MultipleOf(k: int, l: int)
    requires l >= 1
    ensures (k * l) % l == 0 && (k * l) / l == k
  {
    var q := k * l;
    var d, r := q / l, q % l;
    assert q == l * d + r && 0 <= r < l;
    assert l * (k - d) == r;
    MulAwayFromZero(l, k - d);
  }

  lemma MulAwayFromZero(l: int, m: int)
    requires l >= 1
    ensures m >= 1 ==> l * m >= l
    ensures m <= -1 ==> l * m <= -l
  {
  }

  /** The page a list response reports: `(offset / limit) + 1`. */
  function PageNumber(limit: int, offset: int): int
    requires limit != 0
  {
    Quo(offset, limit) + 1
  }

  /** For a positive limit and a non-negative offset, the reported page is the one holding row `offset`. */
  lemma PageHoldsOffset(limit: int, offset: int)
    requires limit != 0
    ensures limit >= 1 && offset >= 0 ==>
              && PageNumber(limit, offset) >= 1
              && (PageNumber(limit, offset) - 1) * limit <= offset < PageNumber(limit, offset) * limit
  {
    assert limit >= 1 && offset >= 0 ==> PageNumber(limit, offset) - 1 == offset / limit;
  }

  /** `model.PaginatedResponse`: the reported page, the limit, and the rows of that page. */
  datatype Page<T> = Page(page: int, limit: int, data: seq<T>)

  /** The reported page is the page that was requested: the offset arithmetic round-trips. */
  lemma PageNumberRoundTrip(pageQuery: Option<string>, limitQuery: Option<string>)
    ensures var p := GetPaginationParams(pageQuery, limitQuery);
            PageNumber(p.limit, p.offset) == p.page
  {
  }

  /** Absent parameters default to page 1 and limit 10. */
  lemma Defaults()
    ensures GetPaginationParams(None, None) == Params(1, DefaultLimit, 0)
  {
    assert Atoi("1") == Parsed(1, true);
    assert Atoi("10") == Parsed(10, true);
  }

  /** Malformed text reads as 0 and is clamped to page 1 and limit 10. */
  lemma MalformedClamped(pageText: string, limitText: string)
    requires |pageText| <= 19 && !IsDecimal(pageText)
    requires |limitText| <= 19 && !IsDecimal(limitText)
    ensures GetPaginationParams(Some(pageText), Some(limitText)) == Params(1, DefaultLimit, 0)
  {
    AtoiMalformedIsZero(pageText);
    AtoiMalformedIsZero(limitText);
  }

  /**
   * A page below 1 (including text that reads as 0) becomes page 1, a limit
   * above 100 is cut to 100 and one below 1 becomes 10, and a parsed page or
   * limit inside the range passes through unchanged.
   */
  lemma InRangePassesThrough(pageQuery: Option<string>, limitQuery: Option<string>)
    ensures var pageText := DefaultQuery(pageQuery, "1");
            var limitText := DefaultQuery(limitQuery, "10");
            var p := GetPaginationParams(pageQuery, limitQuery);
            && (AtoiOrZero(pageText) >= 1 ==> p.page == AtoiOrZero(pageText))
            && (AtoiOrZero(pageText) < 1 ==> p.page == 1)
            && (1 <= AtoiOrZero(limitText) <= MaxLimit ==> p.limit == AtoiOrZero(limitText))
            && (AtoiOrZero(limitText) > MaxLimit ==> p.limit == MaxLimit)
            && (AtoiOrZero(limitText) < 1 ==> p.limit == DefaultLimit)
  {
  }
}
