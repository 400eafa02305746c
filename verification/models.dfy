/** The blog's entities (blogicum/blog/models.py) and the in-memory store that
    stands for the database: one table per entity, keyed by primary key, with
    one id sequence per table. `Valid` is the referential integrity the
    foreign keys and unique constraints promise; every insert and delete below
    preserves it, and the deletes carry out the `on_delete` rules. */
module Models {
  import opened Base

  type UserId = nat
  type CategoryId = nat
  type LocationId = nat
  type PostId = nat
  type CommentId = nat

  /** The authentication subsystem's user; only the username matters here. */
  datatype User = User(username: string)

  datatype Category = Category(
    title: string,
    description: string,
    slug: string,
    isPublished: bool,
    createdAt: int)

  datatype Location = Location(
    name: string,
    isPublished: bool,
    createdAt: int)

  datatype Post = Post(
    title: string,
    text: string,
    pubDate: int,
    author: UserId,
    category: Option<CategoryId>,
    location: Option<LocationId>,
    image: Option<string>,
    isPublished: bool,
    createdAt: int)

  datatype Comment = Comment(
    post: PostId,
    author: UserId,
    text: string,
    createdAt: int)

  datatype Store = Store(
    users: map<UserId, User>,
    categories: map<CategoryId, Category>,
    locations: map<LocationId, Location>,
    posts: map<PostId, Post>,
    comments: map<CommentId, Comment>,
    nextCategory: nat,
    nextLocation: nat,
    nextPost: nat,
    nextComment: nat)

  /** The `default` of the `is_published` field every publishable entity shares. */
  const PublishedByDefault := true

  /** The flag a new entity gets: the one given, else the field default. */
  function InitialFlag(given: Option<bool>): (b: bool)
    ensures given.None? ==> b == PublishedByDefault
    ensures given.Some? ==> b == given.value
  {
    given.GetOr(PublishedByDefault)
  }

  function NewCategory(title: string, description: string, slug: string, isPublished: Option<bool>, now: int): (c: Category)
    ensures c.slug == slug && c.title == title && c.description == description
    ensures c.isPublished == InitialFlag(isPublished)
    ensures c.createdAt == now
  {
    Category(title, description, slug, InitialFlag(isPublished), now)
  }

  function NewLocation(name: string, isPublished: Option<bool>, now: int): (l: Location)
    ensures l.name == name
    ensures l.isPublished == InitialFlag(isPublished)
    ensures l.createdAt == now
  {
    Location(name, InitialFlag(isPublished), now)
  }

  function NewPost(
    title: string, text: string, pubDate: int, author: UserId,
    category: Option<CategoryId>, location: Option<LocationId>, image: Option<string>,
    isPublished: Option<bool>, now: int): (p: Post)
    ensures p.author == author && p.category == category && p.location == location
    ensures p.title == title && p.text == text && p.pubDate == pubDate && p.image == image
    ensures p.isPublished == InitialFlag(isPublished)
    ensures p.createdAt == now
  {
    Post(title, text, pubDate, author, category, location, image, InitialFlag(isPublished), now)
  }

  lemma NewEntitiesArePublishedByDefault(title: string, text: string, slug: string, pubDate: int,
                                         author: UserId, now: int)
    ensures NewCategory(title, text, slug, None, now).isPublished
    ensures NewLocation(title, None, now).isPublished
    ensures NewPost(title, text, pubDate, author, None, None, None, None, now).isPublished
  {
  }

  // ----- ordering (Meta.ordering) -----

  /** Posts: newest `pub_date` first, ties broken by newest `created_at`. */
  predicate PostBefore(a: Post, b: Post) {
    a.pubDate > b.pubDate || (a.pubDate == b.pubDate && a.createdAt >= b.createdAt)
  }

  /** Comments: chronological by `created_at`. */
  predicate CommentBefore(a: Comment, b: Comment) {
    a.createdAt <= b.createdAt
  }

  /** Categories: alphabetical by title. */
  predicate CategoryBefore(a: Category, b: Category) {
    LexLe(a.title, b.title)
  }

  /** Locations: alphabetical by name. */
  predicate LocationBefore(a: Location, b: Location) {
    LexLe(a.name, b.name)
  }

  lemma OrderingsAreTotalPreorders()
    ensures TotalPreorder(PostBefore)
    ensures TotalPreorder(CommentBefore)
    ensures TotalPreorder(CategoryBefore)
    ensures TotalPreorder(LocationBefore)
  {
    LexLeIsTotalPreorder();
  }

  /** The default listing of all categories, in title order. */
  function CategoryListing(s: Store): (r: seq<CategoryId>)
    ensures forall k :: k in r <==> k in s.categories
    ensures NoDup(r)
    ensures forall i, j :: 0 <= i < j < |r| ==> LexLe(s.categories[r[i]].title, s.categories[r[j]].title)
  {
    OrderingsAreTotalPreorders();
    Select(s.categories, c => true, CategoryBefore)
  }

  /** The default listing of all locations, in name order. */
  function LocationListing(s: Store): (r: seq<LocationId>)
    ensures forall k :: k in r <==> k in s.locations
    ensures NoDup(r)
    ensures forall i, j :: 0 <= i < j < |r| ==> LexLe(s.locations[r[i]].name, s.locations[r[j]].name)
  {
    OrderingsAreTotalPreorders();
    Select(s.locations, l => true, LocationBefore)
  }

  // ----- integrity -----

  /** The foreign keys of a post: the author is required; category and
      location are nullable. */
  predicate PostRefsExist(s: Store, p: Post) {
    && p.author in s.users
    && (p.category.Some? ==> p.category.value in s.categories)
    && (p.location.Some? ==> p.location.value in s.locations)
  }

  predicate CommentRefsExist(s: Store, c: Comment) {
    c.post in s.posts && c.author in s.users
  }

  /** The `unique=True` constraint on `Category.slug`. */
  predicate SlugsUnique(cats: map<CategoryId, Category>) {
    forall a, b :: a in cats && b in cats && a != b ==> cats[a].slug != cats[b].slug
  }

  /** Usernames are unique in the authentication subsystem. */
  predicate UsernamesUnique(users: map<UserId, User>) {
    forall a, b :: a in users && b in users && a != b ==> users[a].username != users[b].username
  }

  /** No table holds an id its sequence has not handed out yet. */
  predicate SequencesAhead(s: Store) {
    && (forall k :: k in s.categories ==> k < s.nextCategory)
    && (forall k :: k in s.locations ==> k < s.nextLocation)
    && (forall k :: k in s.posts ==> k < s.nextPost)
    && (forall k :: k in s.comments ==> k < s.nextComment)
  }

  predicate Valid(s: Store) {
    && SequencesAhead(s)
    && (forall k :: k in s.posts ==> PostRefsExist(s, s.posts[k]))
    && (forall k :: k in s.comments ==> CommentRefsExist(s, s.comments[k]))
    && SlugsUnique(s.categories)
    && UsernamesUnique(s.users)
  }

  function EmptyStore(): (s: Store)
    ensures Valid(s)
    ensures s.posts == map[] && s.comments == map[]
  {
    Store(map[], map[], map[], map[], map[], 0, 0, 0, 0)
  }

  // ----- inserts (admin site) -----

  datatype Saved = Saved(store: Store, id: nat) | IntegrityError

  predicate SlugTaken(s: Store, slug: string) {
    exists k :: k in s.categories && s.categories[k].slug == slug
  }

  /** Saves a new category; the unique index on `slug` rejects a duplicate. */
  function AddCategory(s: Store, title: string, description: string, slug: string,
                       isPublished: Option<bool>, now: int): (r: Saved)
    ensures r.IntegrityError? <==> SlugTaken(s, slug)
    ensures r.Saved? && SequencesAhead(s) ==> r.id !in s.categories && SequencesAhead(r.store)
    ensures r.Saved? ==> r.id in r.store.categories
    ensures r.Saved? ==> r.store.categories[r.id] == NewCategory(title, description, slug, isPublished, now)
    ensures r.Saved? ==> r.store.categories.Keys == s.categories.Keys + {r.id}
    ensures r.Saved? && SequencesAhead(s) ==> forall k :: k in s.categories ==> r.store.categories[k] == s.categories[k]
    ensures r.Saved? ==> r.store.posts == s.posts && r.store.comments == s.comments && r.store.users == s.users
    ensures r.Saved? ==> r.store == s.(categories := r.store.categories, nextCategory := r.store.nextCategory)
    ensures r.Saved? && SlugsUnique(s.categories) ==> SlugsUnique(r.store.categories)
  {
    var taken := FindKey(s.categories, (c: Category) => c.slug == slug);
    if taken.Some? then IntegrityError
    else
      var id := s.nextCategory;
      Saved(s.(categories := s.categories[id := NewCategory(title, description, slug, isPublished, now)],
               nextCategory := id + 1), id)
  }

  /** Saves a new location. */
  function AddLocation(s: Store, name: string, isPublished: Option<bool>, now: int): (r: Saved)
    ensures r.Saved?
    ensures SequencesAhead(s) ==> r.id !in s.locations && SequencesAhead(r.store)
    ensures r.store.locations == s.locations[r.id := NewLocation(name, isPublished, now)]
    ensures r.store.posts == s.posts && r.store.comments == s.comments
    ensures r.store.users == s.users && r.store.categories == s.categories
    ensures r.store == s.(locations := r.store.locations, nextLocation := r.store.nextLocation)
  {
    var id := s.nextLocation;
    Saved(s.(locations := s.locations[id := NewLocation(name, isPublished, now)], nextLocation := id + 1), id)
  }

  // ----- deletes (on_delete rules) -----

  /** Deletes a comment; nothing refers to comments. */
  function DeleteComment(s: Store, cid: CommentId): (r: Store)
    ensures r.comments.Keys == s.comments.Keys - {cid}
    ensures forall c :: c in r.comments ==> r.comments[c] == s.comments[c]
    ensures r == s.(comments := r.comments)
  {
    s.(comments := s.comments - {cid})
  }

  /** Deletes a post; its comments go with it (`Comment.post`, CASCADE). */
  function DeletePost(s: Store, pid: PostId): (r: Store)
    ensures r.posts.Keys == s.posts.Keys - {pid}
    ensures forall k :: k in r.posts ==> r.posts[k] == s.posts[k]
    ensures forall c :: c in r.comments <==> c in s.comments && s.comments[c].post != pid
    ensures forall c :: c in r.comments ==> r.comments[c] == s.comments[c]
    ensures r == s.(posts := r.posts, comments := r.comments)
  {
    s.(posts := s.posts - {pid},
       comments := map c | c in s.comments && s.comments[c].post != pid :: s.comments[c])
  }

  /** True when deleting user `uid` takes comment `c` with it: the comment
      is the user's own, or sits on a post the user wrote. */
  predicate CascadesFromUser(s: Store, uid: UserId, c: Comment) {
    c.author == uid || (c.post in s.posts && s.posts[c.post].author == uid)
  }

  /** Deletes a user; their posts (`Post.author`, CASCADE), their comments
      (`Comment.author`, CASCADE) and the comments on their posts
      (`Comment.post`, CASCADE) go with them. */
  function DeleteUser(s: Store, uid: UserId): (r: Store)
    ensures r.users.Keys == s.users.Keys - {uid}
    ensures forall k :: k in r.users ==> r.users[k] == s.users[k]
    ensures forall k :: k in r.posts <==> k in s.posts && s.posts[k].author != uid
    ensures forall k :: k in r.posts ==> r.posts[k] == s.posts[k]
    ensures forall c :: c in r.comments <==> c in s.comments && !CascadesFromUser(s, uid, s.comments[c])
    ensures forall c :: c in r.comments ==> r.comments[c] == s.comments[c]
    ensures r == s.(users := r.users, posts := r.posts, comments := r.comments)
  {
    s.(users := s.users - {uid},
       posts := map k | k in s.posts && s.posts[k].author != uid :: s.posts[k],
       comments := map c | c in s.comments && !CascadesFromUser(s, uid, s.comments[c]) :: s.comments[c])
  }

  /** Deletes a category; its posts stay, with `category` set to null
      (`Post.category`, SET_NULL). */
  function DeleteCategory(s: Store, cid: CategoryId): (r: Store)
    ensures r.categories.Keys == s.categories.Keys - {cid}
    ensures forall k :: k in r.categories ==> r.categories[k] == s.categories[k]
    ensures r.posts.Keys == s.posts.Keys
    ensures forall k :: k in s.posts && s.posts[k].category == Some(cid) ==> r.posts[k] == s.posts[k].(category := None)
    ensures forall k :: k in s.posts && s.posts[k].category != Some(cid) ==> r.posts[k] == s.posts[k]
    ensures r == s.(categories := r.categories, posts := r.posts)
  {
    s.(categories := s.categories - {cid},
       posts := map k | k in s.posts ::
         if s.posts[k].category == Some(cid) then s.posts[k].(category := None) else s.posts[k])
  }

  /** Deletes a location; its posts stay, with `location` set to null
      (`Post.location`, SET_NULL). */
  function DeleteLocation(s: Store, lid: LocationId): (r: Store)
    ensures r.locations.Keys == s.locations.Keys - {lid}
    ensures forall k :: k in r.locations ==> r.locations[k] == s.locations[k]
    ensures r.posts.Keys == s.posts.Keys
    ensures forall k :: k in s.posts && s.posts[k].location == Some(lid) ==> r.posts[k] == s.posts[k].(location := None)
    ensures forall k :: k in s.posts && s.posts[k].location != Some(lid) ==> r.posts[k] == s.posts[k]
    ensures r == s.(locations := r.locations, posts := r.posts)
  {
    s.(locations := s.locations - {lid},
       posts := map k | k in s.posts ::
         if s.posts[k].location == Some(lid) then s.posts[k].(location := None) else s.posts[k])
  }

  // ----- integrity is preserved -----

  lemma AddCategoryPreservesValid(s: Store, title: string, description: string, slug: string,
                                  isPublished: Option<bool>, now: int)
    requires Valid(s)
    ensures var r := AddCategory(s, title, description, slug, isPublished, now);
      r.Saved? ==> Valid(r.store)
  {
  }

  lemma AddLocationPreservesValid(s: Store, name: string, isPublished: Option<bool>, now: int)
    requires Valid(s)
    ensures Valid(AddLocation(s, name, isPublished, now).store)
  {
  }

  lemma DeleteCommentPreservesValid(s: Store, cid: CommentId)
    requires Valid(s)
    ensures Valid(DeleteComment(s, cid))
  {
    var r := DeleteComment(s, cid);
    forall k | k in r.posts ensures PostRefsExist(r, r.posts[k]) {
      assert PostRefsExist(s, s.posts[k]);
    }
    forall c | c in r.comments ensures CommentRefsExist(r, r.comments[c]) {
      assert CommentRefsExist(s, s.comments[c]);
    }
  }

  lemma DeletePostPreservesValid(s: Store, pid: PostId)
    requires Valid(s)
    ensures Valid(DeletePost(s, pid))
    ensures forall c :: c in DeletePost(s, pid).comments ==> DeletePost(s, pid).comments[c].post != pid
  {
    var r := DeletePost(s, pid);
    forall k | k in r.posts ensures PostRefsExist(r, r.posts[k]) {
      assert PostRefsExist(s, s.posts[k]);
    }
    forall c | c in r.comments ensures CommentRefsExist(r, r.comments[c]) {
      assert CommentRefsExist(s, s.comments[c]);
    }
  }

  lemma DeleteUserPreservesValid(s: Store, uid: UserId)
    requires Valid(s)
    ensures Valid(DeleteUser(s, uid))
  {
    var r := DeleteUser(s, uid);
    forall k | k in r.posts ensures PostRefsExist(r, r.posts[k]) {
      assert PostRefsExist(s, s.posts[k]);
    }
    forall c | c in r.comments ensures CommentRefsExist(r, r.comments[c]) {
      var cm := s.comments[c];
      assert CommentRefsExist(s, cm) && !CascadesFromUser(s, uid, cm);
    }
    assert UsernamesUnique(r.users);
  }

  lemma DeleteCategoryPreservesValid(s: Store, cid: CategoryId)
    requires Valid(s)
    ensures Valid(DeleteCategory(s, cid))
  {
    var r := DeleteCategory(s, cid);
    forall k | k in r.posts ensures PostRefsExist(r, r.posts[k]) {
      assert PostRefsExist(s, s.posts[k]);
    }
    forall c | c in r.comments ensures CommentRefsExist(r, r.comments[c]) {
      assert CommentRefsExist(s, s.comments[c]);
    }
    assert SlugsUnique(r.categories);
  }

  lemma DeleteLocationPreservesValid(s: Store, lid: LocationId)
    requires Valid(s)
    ensures Valid(DeleteLocation(s, lid))
  {
    var r := DeleteLocation(s, lid);
    forall k | k in r.posts ensures PostRefsExist(r, r.posts[k]) {
      assert PostRefsExist(s, s.posts[k]);
    }
    forall c | c in r.comments ensures CommentRefsExist(r, r.comments[c]) {
      assert CommentRefsExist(s, s.comments[c]);
    }
  }
}
