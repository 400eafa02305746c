/** The read side of blogicum/blog/views.py: the public-visibility filter,
    pagination, and the four read-only handlers (home feed, category feed,
    profile feed, post detail). A handler is a pure function of the store,
    the viewer and the request parameters; the clock is the parameter `now`.
    The response types shared with the mutating handlers live here too. */
module Views {
  import opened Base
  import opened Models

  /** Page size of every feed (`POSTS_PER_PAGE`). */
  const PostsPerPage: nat := 10

  datatype FeedPage = FeedPage(items: seq<PostId>, number: nat, numPages: nat)

  /** What a rendered template shows, reduced to the ids it is given. */
  datatype View =
    | IndexView(page: FeedPage)
    | CategoryView(category: CategoryId, page: FeedPage)
    | ProfileView(profile: UserId, page: FeedPage)
    | DetailView(post: PostId, comments: seq<CommentId>, commentForm: bool)
    | PostFormView(instance: Option<PostId>)
    | CommentView(post: PostId, comment: CommentId, withForm: bool)

  datatype Target = ProfileOf(username: string) | PostDetailOf(post: PostId)

  /** `Unauthenticated` is the `login_required` redirect to the login page;
      `NotFound` is `get_object_or_404`'s 404. */
  datatype Response =
    | Unauthenticated
    | NotFound
    | Redirect(target: Target)
    | Render(view: View)

  /** The viewer is a logged-in user. A session whose user no longer exists
      is anonymous, as the authentication middleware treats it. */
  predicate Authenticated(s: Store, viewer: Option<UserId>) {
    viewer.Some? && viewer.value in s.users
  }

  // ----- visibility -----

  /** `published_filter`: published, due, and in a published category. The
      category is the joined row, absent when the post has none. */
  predicate PublishedFilter(p: Post, category: Option<Category>, now: int) {
    && p.isPublished
    && p.pubDate <= now
    && category.Some?
    && category.value.isPublished
  }

  /** The category row a post joins to, if any. */
  function CategoryOf(s: Store, p: Post): Option<Category> {
    if p.category.Some? && p.category.value in s.categories
    then Some(s.categories[p.category.value])
    else None
  }

  predicate IsPublic(s: Store, p: Post, now: int) {
    PublishedFilter(p, CategoryOf(s, p), now)
  }

  lemma NoCategoryNeverPublic(s: Store, p: Post, now: int)
    requires p.category.None?
    ensures !IsPublic(s, p, now)
  {
  }

  // ----- pagination -----

  /** Number of pages of a feed of `count` posts; an empty feed has one
      (empty) page. */
  function NumPages(count: nat): (n: nat)
    ensures n >= 1
    ensures count <= n * PostsPerPage
    ensures count > 0 ==> (n - 1) * PostsPerPage < count
    ensures count == 0 ==> n == 1
  {
    if count == 0 then 1 else (count + PostsPerPage - 1) / PostsPerPage
  }

  /** The page actually shown for the `page` query parameter (`None` when it
      is absent or not an integer): out-of-range numbers go to the last page. */
  function PageNumber(requested: Option<int>, count: nat): (n: nat)
    ensures 1 <= n <= NumPages(count)
    ensures requested.None? ==> n == 1
    ensures requested.Some? && 1 <= requested.value <= NumPages(count) ==> n == requested.value
    ensures requested.Some? && !(1 <= requested.value <= NumPages(count)) ==> n == NumPages(count)
  {
    match requested
    case None => 1
    case Some(k) => if 1 <= k <= NumPages(count) then k else NumPages(count)
  }

  /** `_paginate`: the slice of the ordered feed for the requested page. */
  function Paginate(items: seq<PostId>, requested: Option<int>): (p: FeedPage)
    ensures p.numPages == NumPages(|items|)
    ensures p.number == PageNumber(requested, |items|)
    ensures 1 <= p.number <= p.numPages
    ensures |p.items| <= PostsPerPage
    ensures p.number < p.numPages ==> |p.items| == PostsPerPage
    ensures p.number == p.numPages ==> (p.number - 1) * PostsPerPage + |p.items| == |items|
    ensures (p.number - 1) * PostsPerPage + |p.items| <= |items|
    ensures forall j :: 0 <= j < |p.items| ==> p.items[j] == items[(p.number - 1) * PostsPerPage + j]
  {
    var n := PageNumber(requested, |items|);
    var start := (n - 1) * PostsPerPage;
    var end := if n * PostsPerPage < |items| then n * PostsPerPage else |items|;
    FeedPage(items[start..end], n, NumPages(|items|))
  }

  /** Every post of a feed is reachable: item `i` is shown on page
      `i / 10 + 1`, at position `i % 10`. */
  lemma ItemOnItsPage(items: seq<PostId>, i: nat)
    requires i < |items|
    ensures var p := Paginate(items, Some(i / PostsPerPage + 1));
      && p.number == i / PostsPerPage + 1
      && i % PostsPerPage < |p.items|
      && p.items[i % PostsPerPage] == items[i]
  {
    var n := NumPages(|items|);
    assert i / PostsPerPage + 1 <= n;
  }

  /** The posts of pages 1 to `n`, one page after the other. */
  function PagesUpTo(items: seq<PostId>, n: nat): seq<PostId>
    requires n <= NumPages(|items|)
  {
    if n == 0 then [] else PagesUpTo(items, n - 1) + Paginate(items, Some(n)).items
  }

  /** Pages 1 to `n` together show the first `10 n` posts of the feed. */
  lemma {:induction false} PagesUpToArePrefix(items: seq<PostId>, n: nat)
    requires n <= NumPages(|items|)
    ensures var end := if n * PostsPerPage < |items| then n * PostsPerPage else |items|;
            PagesUpTo(items, n) == items[..end]
  {
    if n > 0 {
      PagesUpToArePrefix(items, n - 1);
      var p := Paginate(items, Some(n));
      var start := (n - 1) * PostsPerPage;
      var end := if n * PostsPerPage < |items| then n * PostsPerPage else |items|;
      assert p.number == n;
      assert start + |p.items| == end;
      assert p.items == items[start..end];
      assert items[..end] == items[..start] + items[start..end];
    }
  }

  /** Paging loses and repeats nothing: all pages in order are the feed. */
  lemma PagesCoverFeed(items: seq<PostId>)
    ensures PagesUpTo(items, NumPages(|items|)) == items
  {
    PagesUpToArePrefix(items, NumPages(|items|));
  }

  // ----- feeds -----

  /** The home feed before pagination: every public post, in the declared
      `Meta.ordering` of posts (newest first). */
  function PublicFeed(s: Store, now: int): (r: seq<PostId>)
    ensures forall k :: k in r <==>
      && k in s.posts
      && s.posts[k].isPublished
      && s.posts[k].pubDate <= now
      && s.posts[k].category.Some?
      && s.posts[k].category.value in s.categories
      && s.categories[s.posts[k].category.value].isPublished
    ensures NoDup(r)
    ensures SortedBy(r, s.posts, PostBefore)
  {
    OrderingsAreTotalPreorders();
    Select(s.posts, (p: Post) => IsPublic(s, p, now), PostBefore)
  }

  /** `index`. */
  function Index(s: Store, now: int, page: Option<int>): (r: Response)
    ensures r.Render? && r.view.IndexView?
    ensures r.view.page == Paginate(PublicFeed(s, now), page)
    ensures forall k :: k in r.view.page.items ==> k in s.posts && IsPublic(s, s.posts[k], now)
  {
    Render(IndexView(Paginate(PublicFeed(s, now), page)))
  }

  /** `get_object_or_404(Category, slug=slug, is_published=True)`. */
  function FindPublishedCategory(s: Store, slug: string): (r: Option<CategoryId>)
    ensures r.Some? ==> r.value in s.categories && s.categories[r.value].slug == slug
                        && s.categories[r.value].isPublished
    ensures r.None? <==> forall k :: k in s.categories ==> !(s.categories[k].slug == slug && s.categories[k].isPublished)
  {
    FindKey(s.categories, (c: Category) => c.slug == slug && c.isPublished)
  }

  /** The category feed before pagination: the public posts of category `c`. */
  function CategoryFeed(s: Store, c: CategoryId, now: int): (r: seq<PostId>)
    ensures forall k :: k in r <==> k in s.posts && IsPublic(s, s.posts[k], now) && s.posts[k].category == Some(c)
    ensures NoDup(r)
    ensures SortedBy(r, s.posts, PostBefore)
  {
    OrderingsAreTotalPreorders();
    Select(s.posts, (p: Post) => IsPublic(s, p, now) && p.category == Some(c), PostBefore)
  }

  /** `category_posts`. */
  function CategoryPosts(s: Store, slug: string, now: int, page: Option<int>): (r: Response)
    ensures r.NotFound? || r.Render?
    ensures r.NotFound? <==> forall k :: k in s.categories ==> !(s.categories[k].slug == slug && s.categories[k].isPublished)
    ensures r.Render? ==> && r.view.CategoryView?
                          && r.view.category in s.categories
                          && s.categories[r.view.category].slug == slug
                          && s.categories[r.view.category].isPublished
                          && r.view.page == Paginate(CategoryFeed(s, r.view.category, now), page)
  {
    match FindPublishedCategory(s, slug)
    case None => NotFound
    case Some(c) => Render(CategoryView(c, Paginate(CategoryFeed(s, c, now), page)))
  }

  /** `get_object_or_404(User, username=username)`. */
  function FindUser(s: Store, username: string): (r: Option<UserId>)
    ensures r.Some? ==> r.value in s.users && s.users[r.value].username == username
    ensures r.None? <==> forall k :: k in s.users ==> s.users[k].username != username
  {
    FindKey(s.users, (u: User) => u.username == username)
  }

  /** The viewer is the logged-in user `u`. */
  predicate IsViewer(s: Store, viewer: Option<UserId>, u: UserId) {
    Authenticated(s, viewer) && viewer.value == u
  }

  /** The profile feed of `u` before pagination: all of the user's posts for
      the user themself, only the public ones for anyone else. */
  function ProfileFeed(s: Store, viewer: Option<UserId>, u: UserId, now: int): (r: seq<PostId>)
    ensures IsViewer(s, viewer, u) ==>
      forall k :: k in r <==> k in s.posts && s.posts[k].author == u
    ensures !IsViewer(s, viewer, u) ==>
      forall k :: k in r <==> k in s.posts && s.posts[k].author == u && IsPublic(s, s.posts[k], now)
    ensures NoDup(r)
    ensures SortedBy(r, s.posts, PostBefore)
  {
    OrderingsAreTotalPreorders();
    if IsViewer(s, viewer, u) then
      Select(s.posts, (p: Post) => p.author == u, PostBefore)
    else
      Select(s.posts, (p: Post) => IsPublic(s, p, now) && p.author == u, PostBefore)
  }

  /** `profile`. */
  function Profile(s: Store, viewer: Option<UserId>, username: string, now: int, page: Option<int>): (r: Response)
    ensures r.NotFound? || r.Render?
    ensures r.NotFound? <==> forall k :: k in s.users ==> s.users[k].username != username
    ensures r.Render? ==> && r.view.ProfileView?
                          && r.view.profile in s.users
                          && s.users[r.view.profile].username == username
                          && r.view.page == Paginate(ProfileFeed(s, viewer, r.view.profile, now), page)
  {
    match FindUser(s, username)
    case None => NotFound
    case Some(u) => Render(ProfileView(u, Paginate(ProfileFeed(s, viewer, u, now), page)))
  }

  /** The comments of post `pk`, oldest first (`post.comments`). */
  function PostComments(s: Store, pk: PostId): (r: seq<CommentId>)
    ensures forall c :: c in r <==> c in s.comments && s.comments[c].post == pk
    ensures NoDup(r)
    ensures forall i, j :: 0 <= i < j < |r| ==> s.comments[r[i]].createdAt <= s.comments[r[j]].createdAt
  {
    OrderingsAreTotalPreorders();
    Select(s.comments, (c: Comment) => c.post == pk, CommentBefore)
  }

  /** The logged-in viewer wrote post `pk`. */
  predicate IsAuthor(s: Store, viewer: Option<UserId>, pk: PostId) {
    Authenticated(s, viewer) && pk in s.posts && s.posts[pk].author == viewer.value
  }

  /** `post_detail`: the author always sees the post; everyone else sees it
      only when it is public, and gets a 404 otherwise. */
  function PostDetail(s: Store, viewer: Option<UserId>, pk: PostId, now: int): (r: Response)
    ensures r.NotFound? || r.Render?
    ensures r.Render? <==> pk in s.posts && (IsAuthor(s, viewer, pk) || IsPublic(s, s.posts[pk], now))
    ensures r.Render? ==> r.view == DetailView(pk, PostComments(s, pk), Authenticated(s, viewer))
  {
    var shown :=
      if Authenticated(s, viewer) then
        if pk in s.posts && s.posts[pk].author == viewer.value then true
        else pk in s.posts && IsPublic(s, s.posts[pk], now)
      else pk in s.posts && IsPublic(s, s.posts[pk], now);
    if shown then Render(DetailView(pk, PostComments(s, pk), Authenticated(s, viewer)))
    else NotFound
  }
}
