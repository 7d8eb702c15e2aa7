/** The pager: the offsets that the paginate helper offers, and the page that parseState makes of
    an offset. */
module Paging {
  import opened Wrappers

  function CeilDiv(a: nat, b: nat): nat
    requires b > 0
  {
    (a + b - 1) / b
  }

  /** The first record of page k. */
  function First(k: nat, size: nat): nat { size * k }

  /** The first records of the first n pages. */
  function Offsets(n: nat, size: nat): (offsets: seq<nat>) {
    seq(n, k requires 0 <= k < n => First(k, size))
  }

  lemma OffsetsSnoc(n: nat, size: nat)
    ensures Offsets(n, size) + [First(n, size)] == Offsets(n + 1, size)
  {
    hide First;
  }

  const DEFAULT_PAGE_SIZE := 25

  /** `paginate`: the `data-page` offsets, in order. A page size of 0 makes the number of pages
      NaN, and nothing is emitted. */
  method Paginate(totalCount: nat, pageSize: Option<nat>) returns (offsets: seq<nat>)
    ensures var size := if pageSize.None? then 25 else pageSize.value;
      offsets == if size == 0 || totalCount < size then [] else Offsets(CeilDiv(totalCount, size), size)
  {
    var size := if pageSize.None? then DEFAULT_PAGE_SIZE else pageSize.value;
    if size == 0 {
      return [];
    }
    offsets := EmitPages(totalCount, size);
  }

  method EmitPages(totalCount: nat, size: nat) returns (offsets: seq<nat>)
    requires size > 0
    ensures offsets == if totalCount < size then [] else Offsets(CeilDiv(totalCount, size), size)
  {
    hide First, CeilDiv, Offsets;
    var index := totalCount / size;
    ghost var left := totalCount % size;
    Quotient(totalCount, size);
    FirstIs(index, size);
    offsets := [];
    if index == 0 {
      return;
    }
    Monotone(size, 1, index);
    var fromPage, i := 0, 1;
    FirstIs(0, size);
    OffsetsNone(size);
    while i <= index
      invariant 1 <= i <= index + 1
      invariant fromPage == First(i - 1, size) && offsets == Offsets(i - 1, size)
    {
      OffsetsSnoc(i - 1, size);
      offsets := offsets + [fromPage];
      FirstIs(i, size);
      fromPage := size * i;
      i := i + 1;
    }
    OffsetsSnoc(index, size);
    if totalCount - size * index > 0 {
      offsets := offsets + [fromPage];
    }
  }

  lemma OffsetsNone(size: nat)
    ensures Offsets(0, size) == []
  {}

  lemma FirstIs(k: nat, size: nat)
    ensures First(k, size) == size * k
  {}

  lemma Quotient(a: nat, b: nat)
    requires b > 0
    ensures a == b * (a / b) + a % b
    ensures CeilDiv(a, b) == if a % b == 0 then a / b else a / b + 1
  {
    var (q, r) := (a / b, a % b);
    assert a + b - 1 == b * q + (r + b - 1);
    Divides(a + b - 1, b, if r == 0 then q else q + 1);
  }

  lemma Divides(a: nat, b: nat, q: nat)
    requires b > 0 && b * q <= a < b * q + b
    ensures a / b == q
  {
    var p := a / b;
    assert b * p <= a < b * p + b;
    if p < q {
      Monotone(b, p + 1, q);
    } else if p > q {
      Monotone(b, q + 1, p);
    }
  }

  lemma Monotone(b: nat, x: nat, y: nat)
    requires x <= y
    ensures b * x <= b * y
  {}

  /** Record r is on the page that starts at the given offset. */
  predicate OnPage(r: nat, offset: nat, size: nat, totalCount: nat) {
    offset <= r < offset + size && r < totalCount
  }

  /** Some offered page shows record r. */
  predicate Offered(r: nat, offsets: seq<nat>, size: nat, totalCount: nat) {
    exists k :: 0 <= k < |offsets| && OnPage(r, offsets[k], size, totalCount)
  }

  /** The windows of the offered pages partition the records: every record is on exactly one,
      every page shows a record, and no page but the last is short. */
  lemma PagesPartition(totalCount: nat, size: nat)
    requires 0 < size <= totalCount
    ensures var offsets := Offsets(CeilDiv(totalCount, size), size);
      && (forall r: nat :: Offered(r, offsets, size, totalCount) <==> r < totalCount)
      && (forall j, k | 0 <= j < k < |offsets| :: offsets[j] + size <= offsets[k])
      && (forall k | 0 <= k < |offsets| :: offsets[k] < totalCount)
  {
    var n := CeilDiv(totalCount, size);
    var offsets := Offsets(n, size);
    hide CeilDiv, First;
    PageCount(totalCount, size);
    forall r: nat ensures Offered(r, offsets, size, totalCount) <==> r < totalCount {
      if r < totalCount {
        Quotient(r, size);
        FirstIs(r / size, size);
        if r / size >= n { Monotone(size, n, r / size); }
        assert OnPage(r, offsets[r / size], size, totalCount);
      }
    }
    forall j, k | 0 <= j < k < |offsets| ensures offsets[j] + size <= offsets[k] {
      Monotone(size, j + 1, k);
      NextPage(j, size);
      FirstIs(k, size);
    }
    forall k | 0 <= k < |offsets| ensures offsets[k] < totalCount {
      Monotone(size, k + 1, n);
      NextPage(k, size);
    }
  }

  lemma PageCount(totalCount: nat, size: nat)
    requires size > 0
    ensures size * CeilDiv(totalCount, size) < totalCount + size && totalCount <= size * CeilDiv(totalCount, size)
  {
    Quotient(totalCount, size);
    NextPage(totalCount / size, size);
  }

  lemma NextPage(k: nat, size: nat)
    ensures size * (k + 1) == First(k, size) + size && First(k, size) == size * k
  {}

  /** The pager offers exactly the records when there are none or at least one full page: a
      single short page gets no pager at all. */
  lemma PagerCompleteIff(totalCount: nat, size: nat)
    requires size > 0
    ensures var offsets := if totalCount < size then [] else Offsets(CeilDiv(totalCount, size), size);
      (forall r: nat :: Offered(r, offsets, size, totalCount) <==> r < totalCount)
      <==> totalCount == 0 || totalCount >= size
  {
    if totalCount >= size {
      PagesPartition(totalCount, size);
    } else {
      assert !Offered(0, [], size, totalCount);
    }
  }

  /** `queryParams.startIndex` */
  function StartIndex(currentPage: nat, pageSize: nat): nat { pageSize * currentPage }

  /** The page number and size that `parseState` takes from the server's answer; a page size
      that is missing or 0 leaves the collection's own. */
  function ParseState(startIndex: nat, pageSize: Option<nat>, ownSize: nat): (nat, nat)
    requires ownSize > 0
  {
    var size := if pageSize.Some? && pageSize.value != 0 then pageSize.value else ownSize;
    (if startIndex == 0 then 0 else CeilDiv(startIndex, size), size)
  }

  /** The page size is the server's, if it sends one other than 0, and the collection's otherwise. */
  lemma PageSizeIs(startIndex: nat, size: nat, ownSize: nat)
    requires ownSize > 0
    ensures size > 0 ==> ParseState(startIndex, Some(size), ownSize).1 == size
    ensures ParseState(startIndex, Some(0), ownSize).1 == ParseState(startIndex, None, ownSize).1 == ownSize
  {}

  /** parseState inverts startIndex, and any offset comes back as its page exactly when it is a
      page's first record. */
  lemma ParseStateInverts(startIndex: nat, pageSize: Option<nat>, ownSize: nat, page: nat)
    requires ownSize > 0
    ensures var size := ParseState(startIndex, pageSize, ownSize).1;
      ParseState(StartIndex(page, size), pageSize, ownSize) == (page, size)
    ensures var (p, size) := ParseState(startIndex, pageSize, ownSize);
      StartIndex(p, size) == startIndex <==> startIndex % size == 0
  {
    var size := ParseState(startIndex, pageSize, ownSize).1;
    Divides(size * page + size - 1, size, page);
    if page > 0 { Monotone(size, 1, page); }
    Quotient(startIndex, size);
    NextPage(startIndex / size, size);
    if startIndex == 0 { Divides(0, size, 0); }
  }
}
