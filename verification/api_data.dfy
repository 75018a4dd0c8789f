/**
  The ApiDataDisplay component: two cached remote collections (users and
  posts), the loading flag and the view state, the rules by which its
  handlers change them, and the pure search-then-paginate pipeline that
  derives the visible page from that state.
 */
module ApiData {
  import opened Text
  import opened Seqs

  datatype Address = Address(street: string, suite: string, city: string, zipcode: string)

  datatype Company = Company(name: string)

  datatype User = User(
    id: int, name: string, username: string, email: string,
    address: Address, phone: string, website: string, company: Company)

  datatype Post = Post(id: int, userId: int, title: string, body: string)

  datatype View = Users | Posts

  datatype Option<T> = None | Some(value: T)

  /** How a request to one of the two endpoints ends: a parsed JSON array,
      a response whose `ok` is false, or an exception from `fetch` or from
      `response.json()`. */
  datatype FetchOutcome<T> = Loaded(data: seq<T>) | NotOk | Threw

  /** The page currently rendered: user cards or post cards. */
  datatype PageData = UserCards(users: seq<User>) | PostCards(posts: seq<Post>)
  {
    function Size(): nat {
      match this
      case UserCards(us) => |us|
      case PostCards(ps) => |ps|
    }
  }

  const ItemsPerPage: nat := 6

  function Min(a: int, b: int): int { if a <= b then a else b }

  function Max(a: int, b: int): int { if a >= b then a else b }

  // ---------------------------------------------------------------------
  // Search

  /** `field.toLowerCase().includes(term.toLowerCase())`: the empty term
      matches every field, and a match is never longer than its field. */
  predicate FieldMatches(field: string, term: string)
    ensures term == [] ==> FieldMatches(field, term)
    ensures FieldMatches(field, term) ==> |term| <= |field|
  {
    ContainsEmpty(ToLower(field));
    Contains(ToLower(field), ToLower(term))
  }

  /** The user-card search: name, email or company name; the empty term
      matches every user. */
  predicate UserMatches(u: User, term: string)
    ensures term == [] ==> UserMatches(u, term)
    ensures UserMatches(u, term) ==> |term| <= |u.name| || |term| <= |u.email| || |term| <= |u.company.name|
  {
    FieldMatches(u.name, term) || FieldMatches(u.email, term) || FieldMatches(u.company.name, term)
  }

  /** The post-card search: title or body; the empty term matches every post. */
  predicate PostMatches(p: Post, term: string)
    ensures term == [] ==> PostMatches(p, term)
    ensures PostMatches(p, term) ==> |term| <= |p.title| || |term| <= |p.body|
  {
    FieldMatches(p.title, term) || FieldMatches(p.body, term)
  }

  /** A field match ignores case on both sides: lower-casing the field or
      the term beforehand changes no verdict. */
  lemma {:induction false} FieldMatchIgnoresCase(field: string, term: string)
    ensures FieldMatches(ToLower(field), term) == FieldMatches(field, term)
    ensures FieldMatches(field, ToLower(term)) == FieldMatches(field, term)
  {
    ToLowerIdempotent(field);
    ToLowerIdempotent(term);
  }

  /** Lower-casing the search term changes no user's verdict. */
  lemma {:induction false} UserMatchIgnoresCase(u: User, term: string)
    ensures UserMatches(u, ToLower(term)) == UserMatches(u, term)
  {
    ToLowerIdempotent(term);
  }

  /** Lower-casing the search term changes no post's verdict. */
  lemma {:induction false} PostMatchIgnoresCase(p: Post, term: string)
    ensures PostMatches(p, ToLower(term)) == PostMatches(p, term)
  {
    ToLowerIdempotent(term);
  }

  /** `filteredUsers`: the cached users whose name, email or company name
      contains the term (ignoring case), in cache order. */
  function FilteredUsers(users: seq<User>, term: string): (r: seq<User>)
    ensures IsSubsequence(r, users)
    ensures forall i :: 0 <= i < |r| ==> UserMatches(r[i], term)
    ensures forall i :: 0 <= i < |users| && UserMatches(users[i], term) ==> users[i] in r
    ensures forall u :: multiset(r)[u] == if UserMatches(u, term) then multiset(users)[u] else 0
  {
    Filter(users, (u: User) => UserMatches(u, term))
  }

  /** `filteredPosts`: the cached posts whose title or body contains the term
      (ignoring case), in cache order. */
  function FilteredPosts(posts: seq<Post>, term: string): (r: seq<Post>)
    ensures IsSubsequence(r, posts)
    ensures forall i :: 0 <= i < |r| ==> PostMatches(r[i], term)
    ensures forall i :: 0 <= i < |posts| && PostMatches(posts[i], term) ==> posts[i] in r
    ensures forall p :: multiset(r)[p] == if PostMatches(p, term) then multiset(posts)[p] else 0
  {
    Filter(posts, (p: Post) => PostMatches(p, term))
  }

  /** The empty search term matches every record, so nothing is filtered out. */
  lemma EmptyTermMatchesAll(users: seq<User>, posts: seq<Post>)
    ensures FilteredUsers(users, []) == users
    ensures FilteredPosts(posts, []) == posts
  {
    FilterKeepsAll(users, (u: User) => UserMatches(u, []));
    FilterKeepsAll(posts, (p: Post) => PostMatches(p, []));
  }

  /** A term that no record matches leaves nothing, and so no pages. */
  lemma NoMatchNoPages(users: seq<User>, posts: seq<Post>, term: string)
    requires forall i :: 0 <= i < |users| ==> !UserMatches(users[i], term)
    requires forall i :: 0 <= i < |posts| ==> !PostMatches(posts[i], term)
    ensures FilteredUsers(users, term) == [] && TotalPages(|FilteredUsers(users, term)|) == 0
    ensures FilteredPosts(posts, term) == [] && TotalPages(|FilteredPosts(posts, term)|) == 0
  {
    FilterDropsAll(users, (u: User) => UserMatches(u, term));
    FilterDropsAll(posts, (p: Post) => PostMatches(p, term));
  }

  // ---------------------------------------------------------------------
  // Pagination

  /** `Math.ceil(n / itemsPerPage)`: the least number of pages of six that
      holds `n` items. */
  function TotalPages(n: nat): (r: nat)
    ensures r == 0 <==> n == 0
    ensures n > 0 ==> ItemsPerPage * (r - 1) < n <= ItemsPerPage * r
  {
    (n + ItemsPerPage - 1) / ItemsPerPage
  }

  /** Where `Array.prototype.slice` puts a bound `k` in a sequence of length
      `len`: negative bounds count from the end, and bounds are clamped to
      `[0, len]`. */
  function SliceBound(k: int, len: nat): (r: nat)
    ensures r <= len
    ensures 0 <= k ==> r == Min(k, len)
    ensures k < 0 && 0 <= len + k ==> r == len + k
    ensures len + k < 0 ==> r == 0
  {
    if k < 0 then Max(len + k, 0) else Min(k, len)
  }

  /** `s.slice(start, end)`; for non-negative bounds it is the part of `s`
      between the two bounds clamped to the length, empty when they cross. */
  function Slice<T>(s: seq<T>, start: int, end: int): (r: seq<T>)
    ensures |r| <= |s|
    ensures 0 <= start <= end ==> r == s[Min(start, |s|)..Min(end, |s|)]
    ensures 0 <= end <= start ==> r == []
  {
    var from, to := SliceBound(start, |s|), SliceBound(end, |s|);
    if from < to then s[from..to] else []
  }

  /** `startIndex` for a page number: page `p` (from 1) starts after the
      `p - 1` full pages before it. */
  function StartIndex(page: int): (r: int)
    ensures page >= 1 ==> 0 <= r && r % ItemsPerPage == 0 && r / ItemsPerPage == page - 1
  {
    (page - 1) * ItemsPerPage
  }

  /** `paginatedData`: page `page` (counting from 1) of `data`. */
  function PageOf<T>(data: seq<T>, page: int): (r: seq<T>)
    ensures |r| <= ItemsPerPage
    ensures page >= 1 ==> r == data[Min(StartIndex(page), |data|)..Min(StartIndex(page) + ItemsPerPage, |data|)]
  {
    Slice(data, StartIndex(page), StartIndex(page) + ItemsPerPage)
  }

  /** Every page up to the last holds six items, the last holds the rest
      (between one and six), and page `p` is exactly items `6(p-1)` up to
      `min(n, 6p)`. */
  lemma PageSizes<T>(data: seq<T>, page: int)
    requires 1 <= page <= TotalPages(|data|)
    ensures PageOf(data, page) == data[ItemsPerPage * (page - 1)..Min(|data|, ItemsPerPage * page)]
    ensures page < TotalPages(|data|) ==> |PageOf(data, page)| == ItemsPerPage
    ensures page == TotalPages(|data|) ==>
      |PageOf(data, page)| == |data| - ItemsPerPage * (TotalPages(|data|) - 1)
    ensures 1 <= |PageOf(data, page)| <= ItemsPerPage
  {
    var total := TotalPages(|data|);
    assert ItemsPerPage * (page - 1) <= ItemsPerPage * (total - 1) < |data|;
    if page < total {
      assert ItemsPerPage * page <= ItemsPerPage * (total - 1);
    }
  }

  /** Pages after the last are empty. */
  lemma PagesBeyondLastAreEmpty<T>(data: seq<T>, page: int)
    requires page > TotalPages(|data|)
    ensures PageOf(data, page) == []
  {
    var total := TotalPages(|data|);
    assert ItemsPerPage * total <= ItemsPerPage * (page - 1);
  }

  /** The two lemmas above, for any page number. */
  lemma PageSizeBounds<T>(data: seq<T>, page: int)
    ensures 1 <= page <= TotalPages(|data|) ==> 1 <= |PageOf(data, page)| <= ItemsPerPage
    ensures page > TotalPages(|data|) ==> PageOf(data, page) == []
  {
    if 1 <= page <= TotalPages(|data|) {
      PageSizes(data, page);
    } else if page > TotalPages(|data|) {
      PagesBeyondLastAreEmpty(data, page);
    }
  }

  /** Item `i` is on page `i / 6 + 1`, at position `i % 6`: the pages
      together show every item once, in order. */
  lemma ItemOnItsPage<T>(data: seq<T>, i: int)
    requires 0 <= i < |data|
    ensures 1 <= i / ItemsPerPage + 1 <= TotalPages(|data|)
    ensures i % ItemsPerPage < |PageOf(data, i / ItemsPerPage + 1)|
    ensures PageOf(data, i / ItemsPerPage + 1)[i % ItemsPerPage] == data[i]
  {
    var page, total := i / ItemsPerPage + 1, TotalPages(|data|);
    assert ItemsPerPage * (page - 1) + i % ItemsPerPage == i;
    assert page <= total;
    PageSizes(data, page);
  }

  /** The Previous button's update `Math.max(1, prev - 1)`: one page back,
      never below page 1. */
  function PageBefore(p: int): (r: int)
    ensures r >= 1
    ensures p > 1 ==> r == p - 1
    ensures p <= 1 ==> r == 1
  {
    Max(1, p - 1)
  }

  /** The Next button's update `Math.min(totalPages, prev + 1)`: one page on,
      never past the last page. */
  function PageAfter(p: int, total: int): (r: int)
    ensures r <= total
    ensures p < total ==> r == p + 1
    ensures p >= total ==> r == total
  {
    Min(total, p + 1)
  }

  /** Starting from a page in range, both buttons stay in range. */
  lemma NavigationStaysInRange(p: int, total: int)
    requires 1 <= p <= total
    ensures 1 <= PageBefore(p) <= total
    ensures 1 <= PageAfter(p, total) <= total
  {
  }

  // ---------------------------------------------------------------------
  // Auto-fetch

  /** The `useEffect` rule: the request it issues, if any. Only the selected
      view is ever fetched, and only while its cache is empty. */
  function AutoFetchTarget(view: View, users: seq<User>, posts: seq<Post>): (r: Option<View>)
    ensures r != None ==> r == Some(view)
    ensures r != None <==> (view == Users && users == []) || (view == Posts && posts == [])
  {
    if view == Users && |users| == 0 then Some(Users)
    else if view == Posts && |posts| == 0 then Some(Posts)
    else None
  }

  /** The dependency list `[selectedView, users.length, posts.length]` of
      the effect, as it stood when the effect last ran. */
  datatype EffectDeps = EffectDeps(view: View, usersLength: nat, postsLength: nat)

  /** What the effect does when React considers running it: nothing while
      its dependencies are those of its last run (`last`, None before the
      first run), otherwise the `AutoFetchTarget` rule. */
  function EffectRequest(last: Option<EffectDeps>, view: View, users: seq<User>, posts: seq<Post>): (r: Option<View>)
    ensures last == Some(EffectDeps(view, |users|, |posts|)) ==> r == None
    ensures last != Some(EffectDeps(view, |users|, |posts|)) ==> r == AutoFetchTarget(view, users, posts)
    ensures r != None ==> r == Some(view)
  {
    if last == Some(EffectDeps(view, |users|, |posts|)) then None
    else AutoFetchTarget(view, users, posts)
  }

  // ---------------------------------------------------------------------
  // Component state

  /** The state of the ApiDataDisplay component. A request is modelled as
      two events: its start, inside `RunAutoFetch` or `HandleRefresh`, sets
      `loading`; its settlement, `SettleUsersFetch` or `SettlePostsFetch`,
      stores the outcome and clears `loading`. Other handlers may run in
      between, as they can while the browser awaits the response. */
  class ApiDataDisplay {
    var users: seq<User>
    var posts: seq<Post>
    var loading: bool
    var searchTerm: string
    var currentPage: int
    var selectedView: View
    /** The effect's dependencies at its last run; None before it first ran. */
    var lastDeps: Option<EffectDeps>

    /** Page numbers start at 1 and never drop below it. */
    ghost predicate Valid()
      reads this
    {
      currentPage >= 1
    }

    constructor ()
      ensures Valid()
      ensures users == [] && posts == [] && !loading
      ensures searchTerm == [] && currentPage == 1 && selectedView == Users
      ensures lastDeps == None
    {
      users, posts, loading := [], [], false;
      searchTerm, currentPage, selectedView := [], 1, Users;
      lastDeps := None;
    }

    /** `currentData.length`: how many records of the selected view match;
        with an empty search, the whole cache of that view. */
    function MatchCount(): (n: nat)
      reads this
      ensures selectedView == Users ==> n <= |users|
      ensures selectedView == Posts ==> n <= |posts|
      ensures searchTerm == [] ==> n == if selectedView == Users then |users| else |posts|
    {
      EmptyTermMatchesAll(users, posts);
      if selectedView == Users then |FilteredUsers(users, searchTerm)|
      else |FilteredPosts(posts, searchTerm)|
    }

    /** `totalPages` for the current state: no pages without matches,
        otherwise just enough pages of six to hold them all. */
    function PageCount(): (n: nat)
      reads this
      ensures n == 0 <==> MatchCount() == 0
      ensures n > 0 ==> ItemsPerPage * (n - 1) < MatchCount() <= ItemsPerPage * n
    {
      TotalPages(MatchCount())
    }

    /** The Previous / Next controls are rendered: not loading, and more
        than one page, which is to say more than six matches. */
    predicate ControlsShown()
      reads this
      ensures ControlsShown() <==> !loading && MatchCount() > ItemsPerPage
    {
      !loading && PageCount() > 1
    }

    /** `paginatedData`: cards of the selected kind; a full or final page
        while the current page is in range, nothing past the last page. */
    function PaginatedData(): (r: PageData)
      reads this
      ensures r.UserCards? <==> selectedView == Users
      ensures 1 <= currentPage <= PageCount() ==> 1 <= r.Size() <= ItemsPerPage
      ensures currentPage > PageCount() ==> r.Size() == 0
    {
      if selectedView == Users then
        var data := FilteredUsers(users, searchTerm);
        PageSizeBounds(data, currentPage);
        UserCards(PageOf(data, currentPage))
      else
        var data := FilteredPosts(posts, searchTerm);
        PageSizeBounds(data, currentPage);
        PostCards(PageOf(data, currentPage))
    }

    /** The `useEffect`: React runs its body on mount and again only once
        a dependency differs from its last run; the body starts the fetch
        of the selected view when that view's cache is empty, which sets
        `loading`. The dependencies are recorded; nothing else changes. */
    method RunAutoFetch() returns (request: Option<View>)
      requires Valid()
      modifies this
      ensures Valid()
      ensures request == EffectRequest(old(lastDeps), old(selectedView), old(users), old(posts))
      ensures lastDeps == Some(EffectDeps(selectedView, |users|, |posts|))
      ensures loading == (request != None || old(loading))
      ensures users == old(users) && posts == old(posts)
      ensures searchTerm == old(searchTerm) && currentPage == old(currentPage)
      ensures selectedView == old(selectedView)
    {
      request := EffectRequest(lastDeps, selectedView, users, posts);
      lastDeps := Some(EffectDeps(selectedView, |users|, |posts|));
      if request != None {
        loading := true;
      }
    }

    /** The end of `fetchUsers`: a loaded array replaces the user cache
        wholesale, a failure keeps it; either way `loading` is cleared. */
    method SettleUsersFetch(outcome: FetchOutcome<User>)
      requires Valid()
      modifies this
      ensures Valid()
      ensures outcome.Loaded? ==> users == outcome.data
      ensures !outcome.Loaded? ==> users == old(users)
      ensures !loading
      ensures posts == old(posts)
      ensures searchTerm == old(searchTerm) && currentPage == old(currentPage)
      ensures selectedView == old(selectedView) && lastDeps == old(lastDeps)
    {
      if outcome.Loaded? {
        users := outcome.data;
      }
      loading := false;
    }

    /** The end of `fetchPosts`, as `SettleUsersFetch` for the post cache. */
    method SettlePostsFetch(outcome: FetchOutcome<Post>)
      requires Valid()
      modifies this
      ensures Valid()
      ensures outcome.Loaded? ==> posts == outcome.data
      ensures !outcome.Loaded? ==> posts == old(posts)
      ensures !loading
      ensures users == old(users)
      ensures searchTerm == old(searchTerm) && currentPage == old(currentPage)
      ensures selectedView == old(selectedView) && lastDeps == old(lastDeps)
    {
      if outcome.Loaded? {
        posts := outcome.data;
      }
      loading := false;
    }

    /** `handleRefresh`: back to page 1 with an empty search, and a new
        request for the selected view, whatever its cache holds. The
        Refresh button is disabled while `loading`. */
    method HandleRefresh() returns (request: View)
      requires Valid()
      requires !loading
      modifies this
      ensures Valid()
      ensures request == selectedView == old(selectedView)
      ensures currentPage == 1 && searchTerm == [] && loading
      ensures users == old(users) && posts == old(posts) && lastDeps == old(lastDeps)
    {
      currentPage := 1;
      searchTerm := [];
      request := selectedView;
      loading := true;
    }

    /** The Users / Posts buttons: select the view, back to page 1, clear
        the search. */
    method SelectView(view: View)
      requires Valid()
      modifies this
      ensures Valid()
      ensures selectedView == view && currentPage == 1 && searchTerm == []
      ensures users == old(users) && posts == old(posts) && loading == old(loading)
      ensures lastDeps == old(lastDeps)
    {
      selectedView := view;
      currentPage := 1;
      searchTerm := [];
    }

    /** The search box: take the new term, back to page 1. */
    method EditSearch(term: string)
      requires Valid()
      modifies this
      ensures Valid()
      ensures searchTerm == term && currentPage == 1
      ensures users == old(users) && posts == old(posts) && loading == old(loading)
      ensures selectedView == old(selectedView) && lastDeps == old(lastDeps)
    {
      searchTerm := term;
      currentPage := 1;
    }

    /** The Previous button, clickable only while the controls are shown. */
    method Previous()
      requires Valid()
      requires ControlsShown()
      modifies this
      ensures Valid()
      ensures currentPage == PageBefore(old(currentPage))
      ensures old(currentPage) <= PageCount() ==> currentPage <= PageCount()
      ensures users == old(users) && posts == old(posts) && loading == old(loading)
      ensures searchTerm == old(searchTerm) && selectedView == old(selectedView)
      ensures lastDeps == old(lastDeps)
    {
      currentPage := PageBefore(currentPage);
    }

    /** The Next button, clickable only while the controls are shown. */
    method Next()
      requires Valid()
      requires ControlsShown()
      modifies this
      ensures Valid()
      ensures currentPage == PageAfter(old(currentPage), old(PageCount()))
      ensures 1 <= currentPage <= PageCount()
      ensures users == old(users) && posts == old(posts) && loading == old(loading)
      ensures searchTerm == old(searchTerm) && selectedView == old(selectedView)
      ensures lastDeps == old(lastDeps)
    {
      currentPage := PageAfter(currentPage, PageCount());
    }
  }

  /** On mount the effect requests the users; however that request ends,
      the effect's next run requests nothing: a failure leaves the
      dependencies as they were, and a success fills the cache (or, with
      an empty array, again leaves the dependencies as they were). */
  method MountFetchesOnce(outcome: FetchOutcome<User>) returns (first: Option<View>, second: Option<View>)
    ensures first == Some(Users)
    ensures second == None
  {
    var display := new ApiDataDisplay();
    first := display.RunAutoFetch();
    display.SettleUsersFetch(outcome);
    second := display.RunAutoFetch();
  }
}
