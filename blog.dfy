/** The `Blog` page: the posts kept by the search box and the category
    select, the pages of six posts they are shown in, and the page changes. */
module Blog {
  import opened Wrappers
  import opened Seqs
  import opened Text

  const PostsPerPage: nat := 6

  /** A published post as the page reads it: `excerpt` may be null and the
      embedded category (only its slug matters here) may be missing. */
  datatype Post = Post(title: string, excerpt: Option<string>, categorySlug: Option<string>)

  /** The search term occurs in the title or in the excerpt, ignoring case;
      a null excerpt never matches. */
  predicate MatchesSearch(post: Post, term: string) {
    ContainsIgnoringCase(post.title, term) ||
    (post.excerpt.Some? && ContainsIgnoringCase(post.excerpt.value, term))
  }

  /** Category `"all"` keeps every post; any other value keeps the posts whose
      category has that slug. */
  predicate MatchesCategory(post: Post, category: string) {
    category == "all" || post.categorySlug == Some(category)
  }

  /** `filteredPosts`. */
  function FilteredPosts(posts: seq<Post>, term: string, category: string): (r: seq<Post>)
    ensures IsSubseq(r, posts)
    ensures forall p :: p in r <==> p in posts && MatchesSearch(p, term) && MatchesCategory(p, category)
    ensures forall p ::
      multiset(r)[p] == if MatchesSearch(p, term) && MatchesCategory(p, category) then multiset(posts)[p] else 0
  {
    var keep := (p: Post) => MatchesSearch(p, term) && MatchesCategory(p, category);
    FilterCounts(posts, keep);
    Filter(posts, keep)
  }

  /** The empty search with every category keeps all posts, in fetched order. */
  lemma NoFilterKeepsAll(posts: seq<Post>)
    ensures FilteredPosts(posts, "", "all") == posts
  {
    FilterAll(posts, (p: Post) => MatchesSearch(p, "") && MatchesCategory(p, "all"));
  }

  /** `Math.ceil(n / postsPerPage)`. */
  function TotalPages(n: nat): (r: nat)
    ensures r * PostsPerPage >= n
    ensures r > 0 ==> (r - 1) * PostsPerPage < n
  {
    (n + PostsPerPage - 1) / PostsPerPage
  }

  /** An index given to `Array.prototype.slice`: a negative one counts from
      the end, and both are clamped to the array. */
  function SliceIndex(len: nat, i: int): (r: nat)
    ensures r <= len
    ensures 0 <= i ==> r == if i < len then i else len
  {
    if i < 0 then (if len + i < 0 then 0 else len + i)
    else if i < len then i else len
  }

  /** `s.slice(start, end)` for whole-number arguments. */
  function JsSlice<T>(s: seq<T>, start: int, end: int): (r: seq<T>)
    ensures |r| <= |s|
    ensures 0 <= start <= end ==> |r| <= end - start
  {
    var from, to := SliceIndex(|s|, start), SliceIndex(|s|, end);
    if from < to then s[from..to] else []
  }

  /** `currentPosts` for `page`: the slice from `(page - 1) * 6` to six
      posts further. */
  function PageOf<T>(s: seq<T>, page: int): (r: seq<T>)
    ensures 1 <= page ==> |r| <= PostsPerPage
    ensures 1 <= page ==>
      var start := (page - 1) * PostsPerPage;
      r == if start < |s| then s[start..if start + PostsPerPage < |s| then start + PostsPerPage else |s|] else []
  {
    var start := (page - 1) * PostsPerPage;
    JsSlice(s, start, start + PostsPerPage)
  }

  /** Pages `page` to the last one, one after the other. */
  function PagesFrom<T>(s: seq<T>, page: nat): seq<T>
    requires 1 <= page
    decreases TotalPages(|s|) + 1 - page
  {
    if page > TotalPages(|s|) then [] else PageOf(s, page) + PagesFrom(s, page + 1)
  }

  /** Page `page` starts inside the list exactly when it is one of the pages. */
  lemma PageStart(page: nat, n: nat)
    requires 1 <= page
    ensures page <= TotalPages(n) <==> (page - 1) * PostsPerPage < n
  {
    var t := TotalPages(n);
    if page <= t {
      assert (page - 1) * PostsPerPage <= (t - 1) * PostsPerPage;
    } else {
      assert (page - 1) * PostsPerPage >= t * PostsPerPage;
    }
  }

  lemma {:induction false} PagesFromRest<T>(s: seq<T>, page: nat)
    requires 1 <= page
    ensures PagesFrom(s, page) == s[if (page - 1) * PostsPerPage < |s| then (page - 1) * PostsPerPage else |s|..]
    decreases TotalPages(|s|) + 1 - page
  {
    var start := (page - 1) * PostsPerPage;
    var next := start + PostsPerPage;
    assert next == page * PostsPerPage;
    PageStart(page, |s|);
    if page <= TotalPages(|s|) {
      PagesFromRest(s, page + 1);
      var m := if next < |s| then next else |s|;
      assert PageOf(s, page) == s[start..m];
      assert PagesFrom(s, page + 1) == s[m..];
      assert s[start..] == s[start..m] + s[m..];
    }
  }

  /** Pages 1 to `totalPages`, one after the other, are the filtered list. */
  lemma PagesCoverAll<T>(s: seq<T>)
    ensures PagesFrom(s, 1) == s
  {
    PagesFromRest(s, 1);
  }

  /** The page after "Anterior". */
  function PreviousPage(page: int): (r: int)
    ensures r >= 1
    ensures page > 1 ==> r == page - 1
    ensures page <= 1 ==> r == 1
  {
    if page - 1 > 1 then page - 1 else 1
  }

  /** The page after "Próxima". */
  function NextPage(page: int, total: nat): (r: int)
    ensures r <= total
    ensures page < total ==> r == page + 1
    ensures page >= total ==> r == total
  {
    if page + 1 < total then page + 1 else total
  }

  /** A page that exists, or page 1 when there is none. */
  predicate PageInRange(page: int, total: nat) {
    1 <= page && (page <= total || page == 1)
  }

  /** "Anterior" keeps the page in range; so does "Próxima", which is only
      shown when there is more than one page. */
  lemma PagingStaysInRange(page: int, total: nat)
    requires PageInRange(page, total)
    ensures PageInRange(PreviousPage(page), total)
    ensures total > 1 ==> PageInRange(NextPage(page, total), total)
  {
  }

  /** The page's state. */
  class BlogPage {
    var posts: seq<Post>
    var loading: bool
    var searchTerm: string
    var selectedCategory: string
    var currentPage: int

    constructor ()
      ensures posts == [] && loading && searchTerm == "" && selectedCategory == "all" && currentPage == 1
    {
      posts := [];
      loading := true;
      searchTerm := "";
      selectedCategory := "all";
      currentPage := 1;
    }

    function Filtered(): seq<Post>
      reads this
    {
      FilteredPosts(posts, searchTerm, selectedCategory)
    }

    function Pages(): nat
      reads this
    {
      TotalPages(|Filtered()|)
    }

    /** `currentPosts`: at most six posts, a slice of the filtered ones. */
    function CurrentPosts(): (r: seq<Post>)
      reads this
      ensures currentPage >= 1 ==> |r| <= PostsPerPage
    {
      PageOf(Filtered(), currentPage)
    }

    /** `loadBlogData`: the fetched posts, when the query returned any data,
        replace the list; `loading` ends false either way. */
    method Load(fetched: Option<seq<Post>>)
      modifies this
      ensures posts == (if fetched.Some? then fetched.value else old(posts)) && !loading
      ensures searchTerm == old(searchTerm) && selectedCategory == old(selectedCategory)
      ensures currentPage == old(currentPage)
    {
      loading := true;
      if fetched.Some? {
        posts := fetched.value;
      }
      loading := false;
    }

    /** Typing in the search box: the term changes and page 1 is shown. */
    method SetSearchTerm(term: string)
      modifies this
      ensures searchTerm == term && currentPage == 1
      ensures posts == old(posts) && loading == old(loading) && selectedCategory == old(selectedCategory)
    {
      searchTerm := term;
      currentPage := 1;
    }

    /** Choosing a category: the category changes and page 1 is shown. */
    method SetCategory(category: string)
      modifies this
      ensures selectedCategory == category && currentPage == 1
      ensures posts == old(posts) && loading == old(loading) && searchTerm == old(searchTerm)
    {
      selectedCategory := category;
      currentPage := 1;
    }

    /** "Anterior", disabled on page 1. */
    method Previous()
      modifies this
      ensures currentPage == if old(currentPage) == 1 then 1 else PreviousPage(old(currentPage))
      ensures posts == old(posts) && loading == old(loading)
      ensures searchTerm == old(searchTerm) && selectedCategory == old(selectedCategory)
    {
      if currentPage != 1 {
        currentPage := PreviousPage(currentPage);
      }
    }

    /** "Próxima", disabled on the last page. */
    method Next()
      modifies this
      ensures currentPage == if old(currentPage) == Pages() then old(currentPage) else NextPage(old(currentPage), Pages())
      ensures posts == old(posts) && loading == old(loading)
      ensures searchTerm == old(searchTerm) && selectedCategory == old(selectedCategory)
    {
      if currentPage != Pages() {
        currentPage := NextPage(currentPage, Pages());
      }
    }

    /** The numbered button of `page`. */
    method GoTo(page: int)
      modifies this
      ensures currentPage == page
      ensures posts == old(posts) && loading == old(loading)
      ensures searchTerm == old(searchTerm) && selectedCategory == old(selectedCategory)
    {
      currentPage := page;
    }
  }
}
