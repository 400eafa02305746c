/** Properties that relate several handlers of blogicum/blog/views.py to
    each other and to the integrity rules of blogicum/blog/models.py. */
module Scenarios {
  import opened Base
  import opened Models
  import opened Views
  import opened Handlers

  // ----- the feeds agree with one another -----

  /** A category feed is the home feed restricted to that category. */
  lemma CategoryFeedIsPublicFeedOfCategory(s: Store, c: CategoryId, now: int, k: PostId)
    ensures k in CategoryFeed(s, c, now) <==>
            k in PublicFeed(s, now) && k in s.posts && s.posts[k].category == Some(c)
  {
  }

  /** What a visitor sees on a profile is the home feed restricted to that
      author. */
  lemma PublicProfileIsPublicFeedOfAuthor(s: Store, viewer: Option<UserId>, u: UserId, now: int, k: PostId)
    requires !IsViewer(s, viewer, u)
    ensures k in ProfileFeed(s, viewer, u, now) <==>
            k in PublicFeed(s, now) && k in s.posts && s.posts[k].author == u
  {
  }

  /** The owner of a profile sees everything any visitor sees there. */
  lemma OwnProfileShowsAtLeastWhatOthersSee(s: Store, viewer: Option<UserId>, u: UserId, now: int, k: PostId)
    requires u in s.users
    ensures k in ProfileFeed(s, viewer, u, now) ==> k in ProfileFeed(s, Some(u), u, now)
  {
  }

  // ----- lookups by slug and username -----

  /** With unique slugs, the page of an unpublished category is a 404. */
  lemma UnpublishedCategoryPageNotFound(s: Store, c: CategoryId, now: int, page: Option<int>)
    requires Valid(s)
    requires c in s.categories && !s.categories[c].isPublished
    ensures CategoryPosts(s, s.categories[c].slug, now, page) == NotFound
  {
  }

  /** With unique slugs, the page of a published category shows that very
      category's public posts. */
  lemma PublishedCategoryPageFound(s: Store, c: CategoryId, now: int, page: Option<int>)
    requires Valid(s)
    requires c in s.categories && s.categories[c].isPublished
    ensures CategoryPosts(s, s.categories[c].slug, now, page)
            == Render(CategoryView(c, Paginate(CategoryFeed(s, c, now), page)))
  {
    var r := CategoryPosts(s, s.categories[c].slug, now, page);
    assert r.Render?;
    assert r.view.category == c;
  }

  /** With unique usernames, a profile URL shows exactly that user's profile. */
  lemma ProfileFindsTheUser(s: Store, u: UserId, viewer: Option<UserId>, now: int, page: Option<int>)
    requires Valid(s)
    requires u in s.users
    ensures Profile(s, viewer, s.users[u].username, now, page)
            == Render(ProfileView(u, Paginate(ProfileFeed(s, viewer, u, now), page)))
  {
    var r := Profile(s, viewer, s.users[u].username, now, page);
    assert r.Render?;
    assert r.view.profile == u;
  }

  // ----- publication state -----

  /** The author opens their own post whatever its flag, date or category. */
  lemma AuthorSeesOwnPostInAnyState(s: Store, viewer: Option<UserId>, pk: PostId, now: int,
                                    published: bool, pubDate: int, category: Option<CategoryId>)
    requires IsAuthor(s, viewer, pk)
    ensures var s' := s.(posts := s.posts[pk := s.posts[pk].(isPublished := published, pubDate := pubDate,
                                                             category := category)]);
            PostDetail(s', viewer, pk, now).Render?
  {
  }

  /** Unpublishing a category hides its posts from every public feed and
      from every viewer but their authors, who still open them. */
  lemma UnpublishedCategoryHidesItsPosts(s: Store, c: CategoryId, k: PostId, viewer: Option<UserId>, now: int)
    requires c in s.categories
    requires k in s.posts && s.posts[k].category == Some(c)
    ensures var s' := s.(categories := s.categories[c := s.categories[c].(isPublished := false)]);
            var author := s.posts[k].author;
            && k !in PublicFeed(s', now)
            && k !in CategoryFeed(s', c, now)
            && (!IsViewer(s', viewer, author) ==> k !in ProfileFeed(s', viewer, author, now))
            && (author in s.users ==> k in ProfileFeed(s', Some(author), author, now))
            && (PostDetail(s', viewer, k, now).Render? <==> IsAuthor(s', viewer, k))
  {
    var s' := s.(categories := s.categories[c := s.categories[c].(isPublished := false)]);
    assert s'.posts == s.posts;
    assert !IsPublic(s', s'.posts[k], now);
  }

  // ----- deletion -----

  /** Once the author has deleted a post, nobody can open it and none of
      its comments remain. */
  lemma DeletedPostIsGone(s: Store, actor: Option<UserId>, pid: PostId, viewer: Option<UserId>, now: int)
    requires Valid(s)
    requires IsAuthor(s, actor, pid)
    ensures var s' := PostDelete(s, actor, pid, POST).store;
            && Valid(s')
            && PostDetail(s', viewer, pid, now) == NotFound
            && PostComments(s', pid) == []
            && (forall c :: c in s'.comments ==> s'.comments[c].post != pid)
  {
    DeletePostPreservesValid(s, pid);
  }

  /** Deleting a user leaves no post or comment of theirs behind, and no
      comment on a vanished post. */
  lemma DeletedUserLeavesNothing(s: Store, uid: UserId)
    requires Valid(s)
    ensures var s' := DeleteUser(s, uid);
            && Valid(s')
            && (forall k :: k in s'.posts ==> s'.posts[k].author != uid)
            && (forall c :: c in s'.comments ==> s'.comments[c].author != uid && s'.comments[c].post in s'.posts)
  {
    DeleteUserPreservesValid(s, uid);
  }

  // ----- comments -----

  /** A valid comment shows up on the detail page of its post for anyone who
      can open that post. */
  lemma NewCommentShownOnDetail(s: Store, actor: Option<UserId>, pid: PostId, input: CommentInput,
                                now: int, viewer: Option<UserId>, later: int)
    requires Valid(s)
    requires Authenticated(s, actor) && pid in s.posts && input.valid
    requires IsAuthor(s, viewer, pid) || IsPublic(s, s.posts[pid], later)
    ensures var s' := CommentCreate(s, actor, pid, POST, input, now).store;
            var r := PostDetail(s', viewer, pid, later);
            r.Render? && s.nextComment in r.view.comments
  {
  }

  // ----- nobody changes what is not theirs -----

  /** Whatever a user asks, posts written by someone else stay as they were. */
  lemma OthersPostsUntouched(s: Store, actor: Option<UserId>, req: Request, now: int, k: PostId)
    requires Valid(s)
    requires k in s.posts && !IsAuthor(s, actor, k)
    ensures var s' := Handle(s, actor, req, now).store;
            k in s'.posts && s'.posts[k] == s.posts[k]
  {
  }

  /** Whatever a user asks, a comment written by someone else on a post
      written by someone else stays as it was. */
  lemma OthersCommentsUntouched(s: Store, actor: Option<UserId>, req: Request, now: int, c: CommentId)
    requires Valid(s)
    requires c in s.comments && !IsCommentAuthor(s, actor, c)
    requires !IsAuthor(s, actor, s.comments[c].post)
    ensures var s' := Handle(s, actor, req, now).store;
            c in s'.comments && s'.comments[c] == s.comments[c]
  {
  }
}
