/** Pages of an ordered list: pagination.go, the LIMIT and OFFSET of users.sql, and user.List.
    Page and Size are 32-bit integers, and so is the offset computed from them.
 */
module Pagination {

  const DEFAULT_PAGE_SIZE: int := 20
  const MAX_PAGE_SIZE: int := 100
  const MAX_INT32: int := 0x7fff_ffff

  type Int32 = x: int | -0x8000_0000 <= x <= 0x7fff_ffff

  datatype Params = Params(page: Int32, size: Int32)

  /** Multiplication of two 32-bit integers wraps around. */
  function Wrap(n: int): Int32 {
    var low := n % 0x1_0000_0000;
    if low <= MAX_INT32 then low else low - 0x1_0000_0000
  }

  function Normalize(p: Params): (r: Params)
    ensures r.page >= 1 && 1 <= r.size <= MAX_PAGE_SIZE
    ensures p.page >= 1 && 1 <= p.size <= MAX_PAGE_SIZE ==> r == p
    ensures (p.page < 1 ==> r.page == 1) && (p.page >= 1 ==> r.page == p.page)
    ensures (p.size < 1 ==> r.size == 20) && (1 <= p.size <= 100 ==> r.size == p.size)
    ensures p.size > 100 ==> r.size == 100
  {
    Params(if p.page < 1 then 1 else p.page,
           if p.size < 1 then DEFAULT_PAGE_SIZE else if p.size > MAX_PAGE_SIZE then MAX_PAGE_SIZE else p.size)
  }

  function Offset(p: Params): Int32 {
    var n := Normalize(p);
    Wrap((n.page - 1) * n.size)
  }

  lemma ProductBound(pages: int, size: int)
    requires 0 <= pages <= MAX_INT32 && 0 <= size <= MAX_PAGE_SIZE
    ensures 0 <= pages * size <= pages * MAX_PAGE_SIZE
  {
    var spare := MAX_PAGE_SIZE - size;
    assert pages * spare >= 0;
    assert pages * MAX_PAGE_SIZE == pages * (size + spare) == pages * size + pages * spare;
  }

  /** The offset is the number of rows before the page exactly while that fits in 32 bits. */
  lemma OffsetExact(p: Params)
    ensures var n := Normalize(p);
            Offset(p) == (n.page - 1) * n.size <==> (n.page - 1) * n.size <= MAX_INT32
  {
    var n := Normalize(p);
    ProductBound(n.page - 1, n.size);
  }

  lemma WrapCongruent(n: int)
    ensures (n - Wrap(n)) % 0x1_0000_0000 == 0
  {
  }

  /** Beyond that it is the number of rows up to a multiple of 2^32. */
  lemma OffsetCongruent(p: Params)
    ensures var n := Normalize(p);
            ((n.page - 1) * n.size - Offset(p)) % 0x1_0000_0000 == 0
  {
    var n := Normalize(p);
    var product := (n.page - 1) * n.size;
    WrapCongruent(product);
  }

  /** Normalizing does not establish it: the database is asked for a negative offset. */
  lemma OffsetWraps()
    ensures var p := Params(21474838, 100);
            Normalize(p) == p && Offset(p) == -2147483596
  {
  }

  // ---------------------------------------------------------------------------------------
  // LIMIT and OFFSET
  // ---------------------------------------------------------------------------------------

  /** The rows a query returns, or nothing when the database refuses a negative offset. */
  datatype Rows<T> = Refused | Rows(rows: seq<T>)

  function Query<T>(all: seq<T>, limit: int, offset: int): Rows<T>
    requires limit >= 0
  {
    if offset < 0 then Refused
    else
      var from := if offset < |all| then offset else |all|;
      var to := if from + limit < |all| then from + limit else |all|;
      Rows(all[from..to])
  }

  /** user.List: the rows of one page of the ordered list. */
  function Page<T>(all: seq<T>, p: Params): Rows<T> {
    var n := Normalize(p);
    Query(all, n.size, Offset(n))
  }

  /** The rows of page `page` of size `size`. */
  function Slice<T>(all: seq<T>, page: nat, size: nat): seq<T>
    requires page >= 1 && size >= 1
  {
    var from := (page - 1) * size;
    if from >= |all| then [] else if from + size >= |all| then all[from..] else all[from..from + size]
  }

  lemma PageIsSlice<T>(all: seq<T>, page: Int32, size: Int32)
    requires page >= 1 && 1 <= size <= MAX_PAGE_SIZE && (page - 1) * size <= MAX_INT32
    ensures Page(all, Params(page, size)) == Rows(Slice(all, page, size))
  {
    OffsetExact(Params(page, size));
    ProductBound(page - 1, size);
  }

  function Concatenated<T>(all: seq<T>, pages: nat, size: nat): seq<T>
    requires size >= 1
  {
    if pages == 0 then [] else Concatenated(all, pages - 1, size) + Slice(all, pages, size)
  }

  /** The first pages are the first rows. */
  lemma {:induction false} PagesAreAPrefix<T>(all: seq<T>, pages: nat, size: nat)
    requires size >= 1
    ensures Concatenated(all, pages, size) == if pages * size >= |all| then all else all[..pages * size]
  {
    if pages > 0 {
      PagesAreAPrefix(all, pages - 1, size);
      assert pages * size == (pages - 1) * size + size;
    }
  }

  function PageCount(total: nat, size: nat): nat
    requires size >= 1
  {
    (total + size - 1) / size
  }

  lemma PageCountCovers(total: nat, size: nat)
    requires size >= 1
    ensures total <= PageCount(total, size) * size < total + size
  {
  }

  /** What a caller collects from pages 1 to `pages`. */
  function Collected<T>(all: seq<T>, pages: nat, size: Int32): Rows<T>
    requires pages <= MAX_INT32
  {
    if pages == 0 then Rows([])
    else match (Collected(all, pages - 1, size), Page(all, Params(pages, size)))
      case (Rows(before), Rows(last)) => Rows(before + last)
      case _ => Refused
  }

  lemma {:induction false} CollectedIsConcatenated<T>(all: seq<T>, pages: nat, size: Int32)
    requires 1 <= size <= MAX_PAGE_SIZE && pages <= MAX_INT32 && (pages - 1) * size <= MAX_INT32
    ensures Collected(all, pages, size) == Rows(Concatenated(all, pages, size))
    decreases pages
  {
    if pages > 0 {
      assert (pages - 1) * size == (pages - 2) * size + size;
      CollectedIsConcatenated(all, pages - 1, size);
      PageIsSlice(all, pages, size);
    }
  }

  /** The first page whose offset does not fit: the offset wraps to a negative number. */
  lemma FirstOverflow<T>(all: seq<T>, page: Int32, size: Int32)
    requires page >= 1 && 1 <= size <= MAX_PAGE_SIZE && (page - 2) * size <= MAX_INT32 < (page - 1) * size
    ensures Page(all, Params(page, size)).Refused?
  {
    assert (page - 1) * size == (page - 2) * size + size;
  }

  lemma {:induction false} OverflowRefused<T>(all: seq<T>, pages: nat, size: Int32)
    requires 1 <= size <= MAX_PAGE_SIZE && 1 <= pages <= MAX_INT32 && MAX_INT32 < (pages - 1) * size
    ensures Collected(all, pages, size).Refused?
    decreases pages
  {
    if (pages - 2) * size <= MAX_INT32 {
      FirstOverflow(all, pages, size);
    } else {
      OverflowRefused(all, pages - 1, size);
    }
  }

  lemma EnoughPages<T>(all: seq<T>, pages: nat, size: Int32)
    requires 1 <= size <= MAX_PAGE_SIZE && pages <= MAX_INT32
    requires (pages - 1) * size <= MAX_INT32 && |all| <= pages * size
    ensures Collected(all, pages, size) == Rows(all)
  {
    CollectedIsConcatenated(all, pages, size);
    PagesAreAPrefix(all, pages, size);
  }

  /** Reading all pages in turn gives the whole list, nothing lost or repeated, exactly when the
      offset of the last page fits in 32 bits. */
  lemma PagesPartition<T>(all: seq<T>, size: Int32)
    requires 1 <= size <= MAX_PAGE_SIZE && PageCount(|all|, size) <= MAX_INT32
    ensures Collected(all, PageCount(|all|, size), size) == Rows(all)
            <==> (PageCount(|all|, size) - 1) * size <= MAX_INT32
  {
    var pages := PageCount(|all|, size);
    if (pages - 1) * size <= MAX_INT32 {
      PageCountCovers(|all|, size);
      EnoughPages(all, pages, size);
    } else {
      OverflowRefused(all, pages, size);
    }
  }
}
