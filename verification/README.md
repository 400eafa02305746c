# Blogicum access control and referential integrity, in Dafny

Blogicum is a small multi-user blog written with Django. Users publish posts
in categories, optionally with a location. Other users read the posts through
a home feed, a category feed, a profile feed and a post page, and comment on
them. This project models the part of the site that decides two things:

- who sees which post;
- who may change what, and what each change does to the data.

The database is modelled as an immutable `Store` that holds users,
categories, locations, posts and comments, one map per table, keyed by
primary key. Each table but users also has its own id sequence. Every view is a pure
function:

- the read views take `(store, viewer, parameters, now)` and return a
  `Response`;
- the mutating views take `(store, actor, request)`, plus `now` for the two
  that create a row (`post_create` and `comment_create`). They return an
  `Outcome`, which pairs the response with the next store.

A response is one of four things:

- `Unauthenticated`, the `login_required` redirect to the login page;
- `NotFound`, the 404 of `get_object_or_404`;
- `Redirect` to a profile or a post page;
- `Render` of a view, given as the ids the template receives.

A successful mutation answers with a `Redirect`, as the source does.

The modules follow the source:

- `Base` (base.dfy) holds generic helpers. It has an `Option` type, a
  deterministic enumeration of a finite set of ids, a filter, and a stable
  insertion sort of ids by a preorder on their records. Together these model
  an ordered ORM query: `Select` returns the ids whose records pass a filter,
  each once, in `Meta.ordering` order.
- `Models` (models.dfy) covers blog/models.py:
  - the entities and the flag default (`is_published=True`);
  - the `Meta.ordering` of every model;
  - the store invariant `Valid`: foreign keys resolve, sequences are ahead of
    every id, slugs and usernames are unique;
  - the inserts of the admin site;
  - the deletes, carrying out the CASCADE and SET_NULL rules.
- `Views` (views.dfy) covers the read half of blog/views.py:
  - `published_filter`;
  - the paginator (`POSTS_PER_PAGE` = 10);
  - `index`, `category_posts`, `profile` and `post_detail`.
- `Handlers` (handlers.dfy) covers the mutating half of blog/views.py. It has
  the six `login_required` views, the request dispatcher `Handle`, and the
  proof that every request keeps `Valid`.
- `Scenarios` (scenarios.dfy) holds properties that span several views.

How requests are modelled:

- The viewer is an `Option<UserId>`. A session whose user is not in the
  store counts as anonymous, as Django's authentication middleware treats it.
- A form is bound only to POST data (`request.POST or None`), so a GET never
  has a valid form.
- The form's own field validation is an opaque boolean. A post form's choice
  fields accept only rows that exist. Its category is required
  (`blank=False`) and its location is optional (`blank=True`).
- Time is the parameter `now`.

Notes on the code's behaviour:

- A comment is appended only when its form is valid. An invalid or GET
  submission still redirects to the post page, but adds nothing.
- The delete confirmation for a comment renders without a form, unlike the
  edit page.
- Any existing post can be commented on, edited or deleted by URL, whether
  or not it is public. Only authorship is checked.

## Model

| member | source | states |
|---|---|---|
| Models.InitialFlag | blogicum/blog/models.py:9-13 | a new entity's `is_published` is the value given, else the field default `true` |
| Models.NewEntitiesArePublishedByDefault | blogicum/blog/models.py:9-13 | a category, location or post created without a flag is published |
| Models.NewCategory | blogicum/blog/models.py:20-31 | a new category keeps the given title, description and slug, is stamped with the creation time, and takes the default flag |
| Models.NewLocation | blogicum/blog/models.py:42-43 | a new location keeps its name, is stamped with the creation time, and takes the default flag |
| Models.NewPost | blogicum/blog/models.py:54-86 | a new post keeps every given field and its author, is stamped with the creation time, and takes the default flag |
| Models.PostBefore | blogicum/blog/models.py:91 | `Meta.ordering` of posts: later `pub_date` first, then later `created_at` first |
| Models.CommentBefore | blogicum/blog/models.py:104 | `Meta.ordering` of comments: earlier `created_at` first |
| Models.CategoryBefore | blogicum/blog/models.py:36 | `Meta.ordering` of categories: lexicographic by `title` |
| Models.LocationBefore | blogicum/blog/models.py:48 | `Meta.ordering` of locations: lexicographic by `name` |
| Models.Valid | blogicum/blog/models.py:64-99 | the store invariant: every post's author, category and location and every comment's post and author exist; slugs and usernames are unique; no table holds an id its sequence has not handed out |
| Models.OrderingsAreTotalPreorders | blogicum/blog/models.py:36-104 | the four `Meta.ordering`s compare any two rows and are transitive, so each defines a sort order |
| Models.CategoryListing | blogicum/blog/models.py:36 | lists every category exactly once, by title in lexicographic order |
| Models.LocationListing | blogicum/blog/models.py:48 | lists every location exactly once, by name in lexicographic order |
| Models.AddCategory | blogicum/blog/models.py:23-31 | inserting a category fails exactly when its slug is taken; otherwise it adds one category, changes no other table or sequence, and keeps slugs unique |
| Models.AddLocation | blogicum/blog/models.py:42-51 | inserting a location always succeeds, uses a fresh id and touches no other table |
| Models.DeleteComment | blogicum/blog/models.py:97-101 | removes exactly that comment and changes nothing else |
| Models.DeletePost | blogicum/blog/models.py:98 | removes the post and exactly the comments on it; no other row changes |
| Models.DeleteUser | blogicum/blog/models.py:64-69 | removes the user, exactly their posts, and exactly the comments they wrote or that sit on their posts; no other row changes |
| Models.DeleteCategory | blogicum/blog/models.py:70-77 | removes the category; every post keeps existing, and a post in that category has its category set to null |
| Models.DeleteLocation | blogicum/blog/models.py:78-85 | removes the location; every post keeps existing, and a post there has its location set to null |
| Models.EmptyStore | blogicum/blog/models.py:54-104 | the empty database satisfies every integrity rule |
| Models.AddCategoryPreservesValid | blogicum/blog/models.py:23-25 | inserting a category keeps the store valid, slug uniqueness included |
| Models.AddLocationPreservesValid | blogicum/blog/models.py:42-51 | inserting a location keeps the store valid |
| Models.DeleteCommentPreservesValid | blogicum/blog/models.py:97-99 | deleting a comment keeps the store valid |
| Models.DeletePostPreservesValid | blogicum/blog/models.py:98 | deleting a post keeps the store valid, and no comment points to the deleted post |
| Models.DeleteUserPreservesValid | blogicum/blog/models.py:64-69 | deleting a user keeps the store valid: no post or comment is left pointing at a missing user or post |
| Models.DeleteCategoryPreservesValid | blogicum/blog/models.py:70-77 | deleting a category keeps the store valid |
| Models.DeleteLocationPreservesValid | blogicum/blog/models.py:78-85 | deleting a location keeps the store valid |
| Views.PublishedFilter | blogicum/blog/views.py:15-22 | `published_filter`: the post is published, its `pub_date` is not after now, and it has a category that is published |
| Views.NoCategoryNeverPublic | blogicum/blog/views.py:15-22 | a post without a category never passes the public filter |
| Views.NumPages | blogicum/blog/views.py:25-28 | the page count is the least number of 10-post pages that holds the feed, and at least one |
| Views.PageNumber | blogicum/blog/views.py:25-28 | a missing page parameter shows page 1; an out-of-range one shows the last page; an in-range one is honoured |
| Views.Paginate | blogicum/blog/views.py:25-28 | the page shown is the one `get_page` picks for the request (absent gives 1, out of range gives the last); a page holds at most 10 posts; every page but the last is full; page n shows the feed's posts from index 10(n-1) on, in feed order |
| Views.ItemOnItsPage | blogicum/blog/views.py:25-28 | every post of a feed in one fixed order is reachable: post i is on page i/10+1 at position i%10 |
| Views.PagesUpToArePrefix | blogicum/blog/views.py:25-28 | pages 1 to n, one after the other, show exactly the first 10n posts of the feed |
| Views.PagesCoverFeed | blogicum/blog/views.py:25-28 | all pages of a feed in one fixed order, in page order, are exactly that feed: paging loses no post and repeats none (see Left out for unordered queries) |
| Views.PublicFeed | blogicum/blog/views.py:15-22 | a post is in the home feed iff it is published, its date is not in the future, and its category exists and is published; each post appears once, sorted by the declared `Meta.ordering`, newest first (the annotated query may drop that order; see Left out) |
| Views.Index | blogicum/blog/views.py:31-42 | the home page always renders a page of the public feed, and every post on it is public |
| Views.FindPublishedCategory | blogicum/blog/views.py:46 | finds a published category with the slug, or reports that none exists |
| Views.CategoryFeed | blogicum/blog/views.py:47-53 | a post is in a category feed iff it is public and belongs to that category; each appears once, sorted by the declared `Meta.ordering`, newest first (the annotated query may drop that order; see Left out) |
| Views.CategoryPosts | blogicum/blog/views.py:45-59 | 404 iff no published category has the slug; otherwise renders a page of that category's feed |
| Views.FindUser | blogicum/blog/views.py:64 | finds a user with the username, or reports that none exists |
| Views.ProfileFeed | blogicum/blog/views.py:65-77 | the profile owner gets all of their posts; any other viewer gets exactly that author's public posts; sorted by the declared `Meta.ordering`, newest first (the annotated query may drop that order; see Left out) |
| Views.Profile | blogicum/blog/views.py:62-84 | 404 iff no user has the username; otherwise renders a page of that user's profile feed for this viewer |
| Views.PostComments | blogicum/blog/views.py:110 | a post page lists exactly that post's comments, each once, oldest first |
| Views.PostDetail | blogicum/blog/views.py:87-115 | the post renders iff it exists and the viewer is its logged-in author or it is public; otherwise 404; the page carries its comments and a comment form only for logged-in viewers |
| Handlers.PostFormValid | blogicum/blog/views.py:120-121 | the post form is valid only on POST (`request.POST or None`), with valid fields, an existing category (required, blank=False at blogicum/blog/models.py:75) and either no location or an existing one (blank=True at blogicum/blog/models.py:83) |
| Handlers.CommentFormValid | blogicum/blog/views.py:168-169 | the comment form is valid only on POST (`request.POST or None`) and with valid fields |
| Handlers.ApplyPostForm | blogicum/blog/views.py:134-140 | saving the edit form replaces the form's fields and keeps the author and creation time |
| Handlers.PostCreate | blogicum/blog/views.py:118-126 | anonymous gets the login redirect; a valid form adds one post by the actor at a fresh id and redirects to the actor's profile; otherwise the form re-renders and nothing changes |
| Handlers.PostEdit | blogicum/blog/views.py:129-142 | 404 for a missing post; a non-author is sent to the post page with nothing changed; only the author's valid submission changes the store, and only that post |
| Handlers.PostDelete | blogicum/blog/views.py:145-162 | 404 for a missing post; a non-author is sent to the post page with nothing changed; the author's GET only renders; only the author's POST deletes, with cascade, and redirects to their profile |
| Handlers.CommentCreate | blogicum/blog/views.py:165-174 | anonymous gets the login redirect; a missing post gives 404; otherwise always a redirect to the post page, and a comment by the actor on that post is added iff the form is valid |
| Handlers.CommentEdit | blogicum/blog/views.py:177-195 | 404 iff the post is missing or the comment is not on that post; a non-author is redirected with nothing changed; only the author's valid submission changes the comment's text |
| Handlers.CommentDelete | blogicum/blog/views.py:198-214 | 404 iff the post is missing or the comment is not on that post; a non-author is redirected with nothing changed; only the author's POST removes the comment |
| Handlers.Handle | blogicum/blog/urls.py:15-30 | every mutating route answers anonymous users with the login redirect, and a 404 never changes the store |
| Handlers.PostCreatePreservesValid | blogicum/blog/views.py:118-126 | a created post points at its existing author, category and location, so the store stays valid |
| Handlers.PostEditPreservesValid | blogicum/blog/views.py:129-142 | an edited post points only at existing categories and locations, so the store stays valid |
| Handlers.PostDeletePreservesValid | blogicum/blog/views.py:145-162 | deleting a post takes its comments with it, so no comment points at a missing post |
| Handlers.CommentCreatePreservesValid | blogicum/blog/views.py:165-174 | a new comment points at an existing post and author, so the store stays valid |
| Handlers.CommentEditPreservesValid | blogicum/blog/views.py:177-195 | editing a comment's text keeps the store valid |
| Handlers.CommentDeletePreservesValid | blogicum/blog/views.py:198-214 | removing a comment keeps the store valid |
| Handlers.HandlePreservesValid | blogicum/blog/models.py:64-99 | every mutating request keeps all foreign keys resolving and slugs and usernames unique |
| Handlers.RunPreservesValid | blogicum/blog/models.py:64-99 | every sequence of requests keeps the store valid |
| Scenarios.CategoryFeedIsPublicFeedOfCategory | blogicum/blog/views.py:47-53 | the category feed is the home feed restricted to the category |
| Scenarios.PublicProfileIsPublicFeedOfAuthor | blogicum/blog/views.py:71-77 | what a visitor sees on a profile is the home feed restricted to that author |
| Scenarios.OwnProfileShowsAtLeastWhatOthersSee | blogicum/blog/views.py:65-77 | the profile owner sees every post any visitor sees there |
| Scenarios.UnpublishedCategoryPageNotFound | blogicum/blog/views.py:46 | with unique slugs, the page of an unpublished category is a 404 |
| Scenarios.PublishedCategoryPageFound | blogicum/blog/views.py:45-59 | with unique slugs, a published category's page shows that category's feed |
| Scenarios.ProfileFindsTheUser | blogicum/blog/views.py:62-64 | with unique usernames, a user's profile URL shows that user's profile |
| Scenarios.AuthorSeesOwnPostInAnyState | blogicum/blog/views.py:93-95 | the author opens their own post whatever its flag, date or category |
| Scenarios.UnpublishedCategoryHidesItsPosts | blogicum/blog/views.py:96-107 | once its category is unpublished, a post leaves the home, category and visitor-profile feeds; it stays on its author's own profile, and only the author can open it |
| Scenarios.DeletedPostIsGone | blogicum/blog/views.py:150-155 | after the author deletes a post, nobody can open it and none of its comments remain |
| Scenarios.DeletedUserLeavesNothing | blogicum/blog/models.py:64-69 | after a user is deleted, no post or comment of theirs remains, and every comment's post still exists |
| Scenarios.NewCommentShownOnDetail | blogicum/blog/views.py:169-174 | a valid comment appears on the post page for every viewer who can open the post |
| Scenarios.OthersPostsUntouched | blogicum/blog/views.py:130-133 | whatever a user requests, posts by anyone else stay exactly as they were |
| Scenarios.OthersCommentsUntouched | blogicum/blog/views.py:178-182 | whatever a user requests, a comment by someone else on someone else's post stays exactly as it was |

## Left out

- Pagination: Django's `Paginator.get_page` is framework code. The model
  follows its documented clamping: a missing or non-integer page shows page
  1, and an out-of-range number shows the last page. The raw query string
  is not parsed: `None` stands for "missing or not an integer".
- Query building: `select_related` affects only performance. The
  `comment_count` annotation adds a count that templates display, and it
  also turns each feed query into a GROUP BY query (see the next line).
- Views.PublicFeed, Views.CategoryFeed, Views.ProfileFeed: the order
  modelled is the declared `Meta.ordering` of `Post`, newest `pub_date`
  first (blogicum/blog/models.py:91). The feeds of `index`, `category_posts`
  and `profile` are annotated with `Count('comments')`
  (blogicum/blog/views.py:35, 51, 69, 76) and have no explicit `order_by`.
  Django 3.1 and later does not apply `Meta.ordering` to such GROUP BY
  queries, so on those versions the database returns the feed in an
  unspecified order. The Django version is not pinned in the source.
  Which posts a feed holds, and that none appears twice, hold in any
  order.
- Views.PagesCoverFeed, Views.ItemOnItsPage: each page is its own query
  with `LIMIT 10 OFFSET …` (blogicum/blog/views.py:25-28). These lemmas
  assume every page request sees the feed in the same order. Without an
  ORDER BY, as on Django 3.1 and later, two requests may see different
  orders, and paging can then show a post twice or skip one.
- Form field validation: `forms.py` is not part of this model. Validity is an
  opaque boolean in `PostInput.valid` and `CommentInput.valid`. Only the
  foreign-key choices and the required category are modelled.
- Which fields `PostForm` carries is unknown for the same reason.
  `PostInput.isPublished = None` stands for a form that does not carry the
  flag. The comment form is assumed to carry only `text`.
- Image upload and file handling: the image is an opaque optional string.
- `edit_profile` (blog/views.py:217-227) is left out. It is a thin wrapper
  over Django's `UserChangeForm`.
- The clock: `timezone.now()` becomes the parameter `now`, and timestamps
  are integers with no time zones.
- Templates: a rendered page is reduced to the ids it is given.
- The login redirect's mechanics: `login_required` becomes the
  `Unauthenticated` response.
- Request methods: a request is either GET or POST. The source treats every
  other method like GET.
- User accounts: signing up (users/views.py) and sessions belong to Django's
  authentication subsystem. The model takes the users as given, with unique
  usernames.
- The admin site (blog/admin.py) is covered only through the inserts and
  deletes in `Models`. Admin edits of categories, locations and posts are not
  modelled, so slug uniqueness under edits is not shown.
- Routing (blog/urls.py, blogicum/urls.py) and the error pages
  (pages/views.py) contain no logic and are left out.
- Concurrency and transactions are left out. The database applies each
  request atomically, and each step here is one function application.
- Ordering ties: rows equal on every `Meta.ordering` key come in database
  order, which Django leaves unspecified. The model breaks such ties by
  ascending id.
- Collation: categories and locations sort by code point, not by the
  database's collation.
- Duplicate rows on lookup: `get_object_or_404` fails when two rows match,
  but `Valid` rules that out for slugs and usernames. Without `Valid`,
  `FindKey` returns the lowest id.
- Models.AddCategory, Models.AddLocation, Handlers.PostCreate and
  Handlers.CommentCreate: a new row gets its table's next sequence value.
  The "fresh id" and "other rows unchanged" clauses are stated only for a
  store whose sequences are ahead of its ids, a condition `Valid` includes.
