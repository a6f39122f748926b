/**
 * Offset/limit pagination as the list endpoints compute it: the offset of
 * page `page` is `(page - 1) * pageSize`, a page holds at most `pageSize`
 * rows, and the page count is `Math.ceil(total / pageSize)`.
 */
module Paging {

  function Offset(page: int, pageSize: int): (r: int)
    ensures page >= 1 && pageSize >= 0 ==> r >= 0
    ensures page < 1 && pageSize > 0 ==> r < 0
  {
    (page - 1) * pageSize
  }

  /** `Math.ceil(count / size)`: the least number of pages of `size` rows that hold `count` rows. */
  function TotalPages(count: nat, size: nat): (r: nat)
    requires size > 0
    ensures r * size >= count
    ensures r == 0 || (r - 1) * size < count
  {
    var q := count / size;
    if q * size == count then q else q + 1
  }

  /** `LIMIT pageSize OFFSET (page - 1) * pageSize` over rows already in order. */
  function Page<T>(rows: seq<T>, page: int, pageSize: int): (r: seq<T>)
    requires page >= 1 && pageSize >= 1
    ensures |r| <= pageSize
    ensures Offset(page, pageSize) >= |rows| ==> r == []
    ensures Offset(page, pageSize) < |rows| ==>
      |r| == (if |rows| - Offset(page, pageSize) < pageSize then |rows| - Offset(page, pageSize) else pageSize)
    ensures forall k :: 0 <= k < |r| ==> Offset(page, pageSize) + k < |rows| && r[k] == rows[Offset(page, pageSize) + k]
  {
    var start := Offset(page, pageSize);
    assert start >= 0 by {
      assert page - 1 >= 0;
    }
    if start >= |rows| then []
    else if |rows| - start < pageSize then rows[start..]
    else rows[start..start + pageSize]
  }

  /** Row `i` is row `i % pageSize` of page `i / pageSize + 1`, and that page is within the page count. */
  lemma {:induction false} RowOnPage<T>(rows: seq<T>, pageSize: int, i: nat)
    requires pageSize >= 1 && i < |rows|
    ensures var p := i / pageSize + 1;
      p <= TotalPages(|rows|, pageSize) &&
      i % pageSize < |Page(rows, p, pageSize)| && Page(rows, p, pageSize)[i % pageSize] == rows[i]
  {
    var p := i / pageSize + 1;
    var q, m := i / pageSize, i % pageSize;
    assert i == q * pageSize + m;
    assert Offset(p, pageSize) == q * pageSize;
    var t := TotalPages(|rows|, pageSize);
    if t < p {
      assert t <= q;
      MulMono(t, q, pageSize);
      assert false;
    }
  }

  lemma MulMono(a: nat, b: nat, c: nat)
    requires a <= b
    ensures a * c <= b * c
  {
  }

  /** Pages past the page count are empty. */
  lemma PastLastPage<T>(rows: seq<T>, page: int, pageSize: int)
    requires pageSize >= 1 && page > TotalPages(|rows|, pageSize)
    ensures Page(rows, page, pageSize) == []
  {
    var t := TotalPages(|rows|, pageSize);
    MulMono(t, page - 1, pageSize);
  }
}
