/**
 * The paginated blog list (src/app/api/blogs/route.ts): pages of nine active blogs, newest
 * first, with whether a next page exists and how many pages there are.
 */
module Blogs {
  import opened Wrappers
  import opened Seqs

  const PageSize: nat := 9

  datatype Blog = Blog(id: string, isActive: bool, createdAt: int)

  /** The `page` search parameter as `Number()` sees it: missing, not a number, or an integer. */
  datatype PageParam = Absent | NotANumber | Numeral(n: int)

  /** `Number(param)`, with None for NaN; `Number(null)` is 0. */
  function NumberOf(param: PageParam): Option<int>
  {
    match param
    case Absent => Some(0)
    case NotANumber => None
    case Numeral(n) => Some(n)
  }

  /** `Number(param) || 1`: the number unless it is 0 or NaN, in which case 1. */
  function PageOf(param: PageParam): (page: int)
    ensures page != 0
    ensures page == 1 || param == Numeral(page)
    ensures param.Numeral? && param.n != 0 ==> page == param.n
  {
    match NumberOf(param)
    case Some(n) => if n != 0 then n else 1
    case None => 1
  }

  /** `Math.ceil(total / take)` for whole numbers. */
  function CeilDiv(total: nat, size: nat): nat
    requires size > 0
  {
    (total + size - 1) / size
  }

  /** `orderBy: { createdAt: 'desc' }`. */
  predicate NewerOrSame(a: Blog, b: Blog)
  {
    a.createdAt >= b.createdAt
  }

  /** The active blogs, newest first. */
  function ActiveNewestFirst(blogs: seq<Blog>): seq<Blog>
  {
    assert TotalPreorder(NewerOrSame);
    SortBy(Filter(blogs, (b: Blog) => b.isActive), NewerOrSame)
  }

  datatype Reply = Page(data: seq<Blog>, hasNextPage: bool, totalPages: nat) | Failed(code: int)

  /** `GET`. The handler has no catch, so a store error fails the request with 500: the store
      refuses a negative `skip`, and `storeFails` says whether one of the two queries throws
      for any other reason. */
  function Get(blogs: seq<Blog>, param: PageParam, storeFails: bool): (r: Reply)
    ensures r.Page? ==> |r.data| <= PageSize
    ensures r.Page? ==> forall k :: 0 <= k < |r.data| ==> r.data[k].isActive && r.data[k] in blogs
    ensures r.Page? ==> !storeFails && r.totalPages * PageSize >= |r.data|
  {
    var page := PageOf(param);
    var skip := (page - 1) * PageSize;
    if skip < 0 || storeFails then Failed(500)
    else
      var active := ActiveNewestFirst(blogs);
      var total := Count(blogs, (b: Blog) => b.isActive);
      ActiveNewestFirstExactly(blogs);
      assert forall k :: 0 <= k < |PageAt(active, skip)| ==> PageAt(active, skip)[k] in active;
      Page(PageAt(active, skip), skip + PageSize < total, CeilDiv(total, PageSize))
  }

  /** `take: 9, skip`: the nine elements from `skip` on, fewer at the end, none past it. */
  function PageAt(s: seq<Blog>, skip: nat): (r: seq<Blog>)
    ensures skip < |s| ==> r == s[skip..if skip + PageSize <= |s| then skip + PageSize else |s|]
    ensures skip >= |s| ==> r == []
  {
    Take(if skip <= |s| then s[skip..] else [], PageSize)
  }

  /** `totalPages` is the least n with 9·n ≥ total; there are no pages without blogs. */
  lemma TotalPagesLeast(total: nat)
    ensures CeilDiv(total, PageSize) * PageSize >= total
    ensures CeilDiv(total, PageSize) > 0 ==> (CeilDiv(total, PageSize) - 1) * PageSize < total
    ensures total == 0 <==> CeilDiv(total, PageSize) == 0
  {
  }

  /** For a page number of 1 or more, `hasNextPage` says exactly that the page is not the last. */
  lemma HasNextPageIff(page: int, total: nat)
    requires page >= 1
    ensures (page - 1) * PageSize + PageSize < total <==> page < CeilDiv(total, PageSize)
  {
    TotalPagesLeast(total);
  }

  /** Besides a failing store, only pages numbered below 1 other than 0 (and NaN) fail; everything
      else is served. */
  lemma GetFailsIff(blogs: seq<Blog>, param: PageParam, storeFails: bool)
    ensures Get(blogs, param, storeFails).Failed? <==> storeFails || (param.Numeral? && param.n < 0)
  {
  }

  /** The active blogs newest first are exactly the active blogs, each as often as it is stored. */
  lemma ActiveNewestFirstExactly(blogs: seq<Blog>)
    ensures var active := ActiveNewestFirst(blogs);
      && (forall b :: b in active <==> b in blogs && b.isActive)
      && (forall i, j :: 0 <= i < j < |active| ==> active[i].createdAt >= active[j].createdAt)
      && |active| == Count(blogs, (b: Blog) => b.isActive)
  {
    var active := ActiveNewestFirst(blogs);
    var kept := Filter(blogs, (b: Blog) => b.isActive);
    FilterKeeps(blogs, (b: Blog) => b.isActive);
    assert multiset(active) == multiset(kept);
    assert |active| == |multiset(active)| == |multiset(kept)| == |kept|;
    forall b ensures b in active <==> b in kept {
      assert b in active <==> multiset(active)[b] > 0;
      assert b in kept <==> multiset(kept)[b] > 0;
    }
  }

  /** A served page holds at most nine active blogs, newest first: the slice of the active blogs,
      newest first, that starts at `skip`; its `totalPages` counts only active blogs. */
  lemma PageContents(blogs: seq<Blog>, param: PageParam)
    requires Get(blogs, param, false).Page?
    ensures var r := Get(blogs, param, false);
      var active := ActiveNewestFirst(blogs);
      var skip := (PageOf(param) - 1) * PageSize;
      && |r.data| <= PageSize
      && (forall k :: 0 <= k < |r.data| ==> r.data[k].isActive && r.data[k] in blogs)
      && (forall i, j :: 0 <= i < j < |r.data| ==> r.data[i].createdAt >= r.data[j].createdAt)
      && (skip < |active| ==> r.data == active[skip..if skip + PageSize <= |active| then skip + PageSize else |active|])
      && (skip >= |active| ==> r.data == [])
      && r.totalPages == CeilDiv(|active|, PageSize)
  {
    var r := Get(blogs, param, false);
    var active := ActiveNewestFirst(blogs);
    var skip := (PageOf(param) - 1) * PageSize;
    ActiveNewestFirstExactly(blogs);
    var data := PageAt(active, skip);
    assert r.data == data;
    forall k | 0 <= k < |data| ensures data[k] == active[skip + k] && data[k].isActive && data[k] in blogs {
      assert active[skip + k] in active;
    }
    forall i, j | 0 <= i < j < |data| ensures data[i].createdAt >= data[j].createdAt {
      assert data[i] == active[skip + i] && data[j] == active[skip + j];
    }
  }

  /** No active blog is skipped: the i-th of the active blogs, newest first, is entry i mod 9 of
      page i div 9 + 1. */
  lemma EveryActiveBlogOnItsPage(blogs: seq<Blog>, i: nat)
    requires i < |ActiveNewestFirst(blogs)|
    ensures var r := Get(blogs, Numeral(i / PageSize + 1), false);
      r.Page? && i % PageSize < |r.data| && r.data[i % PageSize] == ActiveNewestFirst(blogs)[i]
  {
    var active := ActiveNewestFirst(blogs);
    var skip := i / PageSize * PageSize;
    assert PageOf(Numeral(i / PageSize + 1)) == i / PageSize + 1;
    assert skip <= i < skip + PageSize;
    var data := PageAt(active, skip);
    assert Get(blogs, Numeral(i / PageSize + 1), false).data == data;
    assert data[i - skip] == active[i];
  }
}
