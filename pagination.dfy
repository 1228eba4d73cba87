/**
 * List pagination shared by the admin and customer listings
 * (routes/admin.js:50-52, 78; routes/customer.js:168-170, 201):
 * `page = parseInt(page) || 1`, `limit = parseInt(limit) || default`,
 * `offset = (page - 1) * limit`, `totalPages = Math.ceil(total / limit)`,
 * and the rows are cut with `LIMIT limit OFFSET offset`.
 */
module Pagination {
  import opened Wrappers
  import opened Text

  datatype Window = Window(page: int, limit: int, offset: int)

  /** The page, limit and offset read from the query string. */
  function WindowOf(pageRaw: string, limitRaw: string, defaultLimit: int): (w: Window)
    requires defaultLimit > 0
    ensures w.limit != 0 && w.page != 0
    ensures w.offset == (w.page - 1) * w.limit
  {
    var page := ParseIntOr(pageRaw, 1);
    var limit := ParseIntOr(limitRaw, defaultLimit);
    Window(page, limit, (page - 1) * limit)
  }

  /** `Math.ceil(total / limit)` for a whole-number total and a non-zero limit. */
  function CeilDiv(total: nat, limit: int): int
    requires limit != 0
  {
    if limit > 0 then (total + limit - 1) / limit else -(total / (-limit))
  }

  /** The page count is the least number of pages of `limit` rows that hold all `total` rows. */
  lemma CeilDivBounds(total: nat, limit: int)
    requires limit > 0
    ensures CeilDiv(total, limit) >= 0
    ensures CeilDiv(total, limit) * limit >= total
    ensures (CeilDiv(total, limit) - 1) * limit < total || total == 0
    ensures CeilDiv(total, limit) == 0 <==> total == 0
  {
    var r := CeilDiv(total, limit);
    var q := total + limit - 1;
    assert q == r * limit + q % limit;
    assert 0 <= q % limit < limit;
  }

  /**
   * `LIMIT limit OFFSET offset` on rows in the query's order. PostgreSQL
   * refuses a negative limit or offset (the request then fails).
   */
  function Slice<T>(rows: seq<T>, offset: int, limit: int): (r: Option<seq<T>>)
    ensures r.None? <==> offset < 0 || limit < 0
    ensures r.Some? ==> |r.value| <= limit
    ensures r.Some? ==> forall j :: 0 <= j < |r.value| ==> offset + j < |rows| && r.value[j] == rows[offset + j]
    ensures r.Some? && offset + limit <= |rows| ==> |r.value| == limit
  {
    if offset < 0 || limit < 0 then None
    else if offset >= |rows| then Some([])
    else Some(rows[offset..Min(offset + limit, |rows|)])
  }

  /**
   * With a positive limit, row `j` is on page `j / limit + 1`, at position
   * `j % limit`, and that page is within the page count: paging through
   * pages 1..totalPages shows every row.
   */
  lemma {:induction false} EveryRowOnItsPage<T>(rows: seq<T>, limit: int, j: int)
    requires limit > 0 && 0 <= j < |rows|
    ensures var p := j / limit + 1;
            var r := Slice(rows, (p - 1) * limit, limit);
            r.Some? && j % limit < |r.value| && r.value[j % limit] == rows[j]
            && p <= CeilDiv(|rows|, limit)
  {
    var q, m := j / limit, j % limit;
    assert j == q * limit + m && 0 <= m < limit;
    assert (j / limit + 1 - 1) * limit == q * limit;
    SliceAt(rows, q * limit, limit, m);
    CeilDivBounds(|rows|, limit);
    var c := CeilDiv(|rows|, limit);
    assert q * limit < c * limit;
    MulMonotone(c, q, limit);
  }

  lemma SliceAt<T>(rows: seq<T>, offset: int, limit: int, m: int)
    requires 0 <= offset && 0 <= m < limit && offset + m < |rows|
    ensures Slice(rows, offset, limit).Some?
    ensures m < |Slice(rows, offset, limit).value|
    ensures Slice(rows, offset, limit).value[m] == rows[offset + m]
  {
  }

  /** The query string of page `p` at `limit` rows per page yields exactly that window. */
  lemma WindowOfPage(p: int, limit: int, defaultLimit: int)
    requires p > 0 && limit > 0 && defaultLimit > 0
    ensures WindowOf(IntToString(p), IntToString(limit), defaultLimit) == Window(p, limit, (p - 1) * limit)
  {
    NatRoundTrip(p);
    NatRoundTrip(limit);
  }

  lemma MulMonotone(a: int, b: int, c: int)
    requires c >= 0
    ensures a <= b ==> a * c <= b * c
  {
  }

  /** The decimal text of a positive number parses back to it. */
  lemma NatRoundTrip(n: nat)
    requires n > 0
    ensures ParseInt(IntToString(n)) == Some(n)
  {
    ParseIntDigits(NatToString(n));
  }

  /** Example: 45 rows at the customer default of 20 per page make 3 pages; page 3 starts at row 40. */
  lemma CustomerDefaultExample()
    ensures WindowOf("3", "", 20) == Window(3, 20, 40)
    ensures CeilDiv(45, 20) == 3
  {
    assert DigitsValue("3") == 3 by { assert "3"[..0] == ""; }
    ParseIntDigits("3");
    assert ParseInt("") == None;
  }

  /** Example: the admin listings default to page 1 of 10 rows, from row 0; 0 rows make 0 pages. */
  lemma AdminDefaultExample()
    ensures WindowOf("", "", 10) == Window(1, 10, 0)
    ensures CeilDiv(0, 10) == 0 && CeilDiv(21, 10) == 3
  {
    assert ParseInt("") == None;
  }
}
