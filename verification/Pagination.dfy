/** Page arithmetic on 32-bit page numbers. */
module Pagination {
  import opened Text

  const U32_MAX: int := 0xFFFF_FFFF
  const I64_MAX: int := 0x7FFF_FFFF_FFFF_FFFF
  const DEFAULT_PER_PAGE: int := 25
  const MAX_PER_PAGE: int := 100

  type u32 = x: int | 0 <= x <= U32_MAX
  type i64 = x: int | -I64_MAX - 1 <= x <= I64_MAX

  datatype PageParams = PageParams(page: u32, perPage: u32)

  function SaturatingMul(a: u32, b: u32): u32 {
    if a * b <= U32_MAX then
      (assert 0 <= a * b; a * b)
    else U32_MAX
  }

  function NewParams(page: Option<u32>, perPage: Option<u32>): (p: PageParams)
    ensures 1 <= p.page && 1 <= p.perPage <= MAX_PER_PAGE
    ensures page.Some? && 1 <= page.value ==> p.page == page.value
    ensures perPage.Some? && 1 <= perPage.value <= MAX_PER_PAGE ==> p.perPage == perPage.value
  {
    PageParams(
      if page.Some? && page.value >= 1 then page.value else 1,
      if perPage.Some? && 1 <= perPage.value <= MAX_PER_PAGE then perPage.value
      else if perPage.Some? && perPage.value > MAX_PER_PAGE then MAX_PER_PAGE
      else DEFAULT_PER_PAGE)
  }

  /** What a request asks for and what it gets. */
  lemma {:induction false} ParamsAre(page: Option<u32>, perPage: Option<u32>)
    ensures var p := NewParams(page, perPage);
      && p.page == (if page == None || page == Some(0) then 1 else page.value)
      && (perPage == None || perPage == Some(0) ==> p.perPage == 25)
      && (perPage.Some? && 1 <= perPage.value <= 100 ==> p.perPage == perPage.value)
      && (perPage.Some? && 100 < perPage.value ==> p.perPage == 100)
  {
  }

  function Offset(p: PageParams): u32
    requires 1 <= p.page
  {
    SaturatingMul(p.page - 1, p.perPage)
  }

  function DivCeil(a: nat, b: nat): nat
    requires 0 < b
  {
    (a + b - 1) / b
  }

  /** `PaginatedList::new`. */
  function TotalPages(total: i64, perPage: u32): u32 {
    if total <= 0 || perPage == 0 then 0
    else if DivCeil(total, perPage) <= U32_MAX then DivCeil(total, perPage)
    else U32_MAX
  }

  /** Item `i` is among those that page `page` fetches. */
  predicate OnPage(i: nat, page: u32, perPage: u32)
    requires 1 <= page
  {
    Offset(PageParams(page, perPage)) <= i < Offset(PageParams(page, perPage)) + perPage
  }

  // ------------------------------------------------------------ arithmetic

  lemma {:induction false} DivCeilBounds(a: nat, b: nat)
    requires 0 < a && 0 < b
    ensures var n := DivCeil(a, b); 0 < n && (n - 1) * b < a <= n * b
  {
    var n, r := (a + b - 1) / b, (a + b - 1) % b;
    assert a + b - 1 == n * b + r && 0 <= r < b;
    assert n * b == (n - 1) * b + b;
  }

  lemma {:induction false} MulMonotone(a: int, b: int, c: nat)
    requires a <= b
    ensures a * c <= b * c
  {
  }

  /** The page of an item, with quotient and remainder spelled out. */
  lemma {:induction false} PageOf(i: nat, b: nat)
    requires 0 < b
    ensures var q := i / b; 0 <= q && q * b <= i < (q + 1) * b
  {
    assert i == (i / b) * b + i % b;
  }

  lemma {:induction false} SlotIsUnique(i: nat, b: nat, p: nat, q: nat)
    requires p * b <= i < (p + 1) * b && q * b <= i < (q + 1) * b
    ensures p == q
  {
    if p < q { MulMonotone(p + 1, q, b); } else if q < p { MulMonotone(q + 1, p, b); }
  }

  /** There are no pages exactly when there is nothing to put on them, or no room. */
  lemma {:induction false} NoPagesIff(total: i64, perPage: u32)
    ensures TotalPages(total, perPage) == 0 <==> total <= 0 || perPage == 0
  {
    if 0 < total && 0 < perPage {
      DivCeilBounds(total, perPage);
    }
  }

  // ------------------------------------------------------------ tiling

  /** Neither the clamp nor the saturation takes effect on the pages in range. */
  ghost predicate Exact(total: i64, perPage: u32)
    requires 0 < total && 0 < perPage
  {
    && TotalPages(total, perPage) == DivCeil(total, perPage)
    && forall p: u32 :: 1 <= p <= TotalPages(total, perPage) ==> Offset(PageParams(p, perPage)) == (p - 1) * perPage
  }

  /** Every item is on exactly one page in range, and no page in range is empty. */
  ghost predicate Tiles(total: i64, perPage: u32)
    requires 0 < total && 0 < perPage
  {
    && (forall i: nat :: i < total ==> Reached(i, total, perPage))
    && (forall i: nat, p: u32, q: u32 ::
          i < total && Holds(i, p, total, perPage) && Holds(i, q, total, perPage) ==> p == q)
    && (forall p: u32 :: 1 <= p <= TotalPages(total, perPage) ==> Offset(PageParams(p, perPage)) < total)
  }

  /** `p` is a page in range, and `i` is on it. */
  predicate Holds(i: nat, p: u32, total: i64, perPage: u32) {
    1 <= p <= TotalPages(total, perPage) && OnPage(i, p, perPage)
  }

  ghost predicate Reached(i: nat, total: i64, perPage: u32) {
    exists p: u32 :: Holds(i, p, total, perPage)
  }

  /** The last page starts within 32 bits, and page numbers suffice. */
  predicate Fits(total: i64, perPage: u32)
    requires 0 < total && 0 < perPage
  {
    DivCeil(total, perPage) <= U32_MAX && (DivCeil(total, perPage) - 1) * perPage <= U32_MAX
  }

  lemma {:induction false} FittingIsExact(total: i64, perPage: u32)
    requires 0 < total && 0 < perPage && Fits(total, perPage)
    ensures Exact(total, perPage)
  {
    forall p: u32 | 1 <= p <= TotalPages(total, perPage)
      ensures Offset(PageParams(p, perPage)) == (p - 1) * perPage
    {
      MulMonotone(p - 1, DivCeil(total, perPage) - 1, perPage);
    }
  }

  lemma {:induction false} ExactTiles(total: i64, perPage: u32)
    requires 0 < total && 0 < perPage && Exact(total, perPage)
    ensures Tiles(total, perPage)
  {
    var n := TotalPages(total, perPage);
    DivCeilBounds(total, perPage);
    forall i: nat | i < total
      ensures Reached(i, total, perPage)
    {
      PageOf(i, perPage);
      var q := i / perPage;
      if n <= q { MulMonotone(n, q, perPage); }
      var p: u32 := q + 1;
      assert Offset(PageParams(p, perPage)) == q * perPage;
      assert (q + 1) * perPage == q * perPage + perPage;
      assert Holds(i, p, total, perPage);
    }
    forall i: nat, p: u32, q: u32 | i < total && Holds(i, p, total, perPage) && Holds(i, q, total, perPage)
      ensures p == q
    {
      assert (p - 1 + 1) * perPage == (p - 1) * perPage + perPage;
      assert (q - 1 + 1) * perPage == (q - 1) * perPage + perPage;
      SlotIsUnique(i, perPage, p - 1, q - 1);
    }
    forall p: u32 | 1 <= p <= n
      ensures Offset(PageParams(p, perPage)) < total
    {
      MulMonotone(p - 1, n - 1, perPage);
    }
  }

  /** Past the limit some item is on two pages, or on none. */
  lemma {:induction false} OverflowingDoesNotTile(total: i64, perPage: u32)
    requires 0 < total && 0 < perPage && !Fits(total, perPage)
    ensures !Tiles(total, perPage)
  {
    DivCeilBounds(total, perPage);
    if perPage == 1 {
      forall p: u32
        ensures !Holds(U32_MAX, p, total, perPage)
      {
      }
      assert !Reached(U32_MAX, total, perPage);
    } else {
      // the last page that starts within 32 bits, and the saturated one after it
      var k := U32_MAX / perPage;
      PageOf(U32_MAX, perPage);
      MulMonotone(2, perPage, k);
      var p: u32, q: u32 := k + 1, k + 2;
      var n := DivCeil(total, perPage);
      if n <= k + 1 { MulMonotone(n - 1, k, perPage); }
      assert (k + 1) * perPage == k * perPage + perPage;
      assert Offset(PageParams(p, perPage)) == k * perPage;
      assert Offset(PageParams(q, perPage)) == U32_MAX;
      MulMonotone(k + 1, n - 1, perPage);
      assert Holds(U32_MAX, p, total, perPage) && Holds(U32_MAX, q, total, perPage);
      assert U32_MAX < total;
    }
  }

  /** The pages tile the items exactly when the last page starts within 32 bits. */
  lemma {:induction false} PagesTileIff(total: i64, perPage: u32)
    requires 0 < total && 0 < perPage
    ensures Tiles(total, perPage) <==> Fits(total, perPage)
    ensures Fits(total, perPage) ==> Exact(total, perPage)
  {
    if Fits(total, perPage) {
      FittingIsExact(total, perPage);
      ExactTiles(total, perPage);
    } else {
      OverflowingDoesNotTile(total, perPage);
    }
  }

  lemma {:induction false} SmallTotalsFit(total: i64, perPage: u32)
    requires 0 < total <= U32_MAX && 0 < perPage
    ensures Fits(total, perPage)
  {
    var n := DivCeil(total, perPage);
    DivCeilBounds(total, perPage);
    assert n - 1 <= (n - 1) * perPage by { MulMonotone(1, perPage, n - 1); }
  }

  /** A page past the last one holds no item. */
  lemma {:induction false} LaterPagesAreEmpty(total: i64, page: u32, perPage: u32)
    requires 0 < total <= U32_MAX && 0 < perPage && TotalPages(total, perPage) < page
    ensures total <= Offset(PageParams(page, perPage))
  {
    var n := DivCeil(total, perPage);
    DivCeilBounds(total, perPage);
    assert total <= n * perPage <= (page - 1) * perPage by {
      assert n <= page - 1;
      MulMonotone(n, page - 1, perPage);
    }
  }

  /** In particular the pages tile every total below 2^32, whatever was asked for. */
  lemma {:induction false} PagesTile(total: i64, page: Option<u32>, perPage: Option<u32>)
    requires 0 < total <= U32_MAX
    ensures Tiles(total, NewParams(page, perPage).perPage)
    ensures Exact(total, NewParams(page, perPage).perPage)
    ensures NewParams(page, perPage).page > TotalPages(total, NewParams(page, perPage).perPage)
      ==> total <= Offset(NewParams(page, perPage))
  {
    var params := NewParams(page, perPage);
    SmallTotalsFit(total, params.perPage);
    PagesTileIff(total, params.perPage);
    if params.page > TotalPages(total, params.perPage) {
      LaterPagesAreEmpty(total, params.page, params.perPage);
      assert params == PageParams(params.page, params.perPage);
    }
  }
}
