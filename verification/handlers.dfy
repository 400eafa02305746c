/** The mutating handlers of blogicum/blog/views.py. Each is a transition
    from a store, an actor and a request to a response and the next store.
    All of them are `login_required`; edits and deletes answer a non-owner
    with a silent redirect to the post's detail page and change nothing. */
module Handlers {
  import opened Base
  import opened Models
  import opened Views

  datatype Method = GET | POST

  /** A submitted post form. `valid` stands for the form's own field
      validation; `isPublished` is `None` when the form does not carry the
      field, so that the model default applies on create and the stored
      value stays on edit. */
  datatype PostInput = PostInput(
    valid: bool,
    title: string,
    text: string,
    pubDate: int,
    isPublished: Option<bool>,
    category: Option<CategoryId>,
    location: Option<LocationId>,
    image: Option<string>)

  datatype CommentInput = CommentInput(valid: bool, text: string)

  datatype Outcome = Outcome(response: Response, store: Store)

  /** `form.is_valid()` of a post form. The form is bound only to POST data
      (`request.POST or None`); its choice fields accept only existing rows;
      the category is required (`blank=False`) and the location is not
      (`blank=True`). */
  predicate PostFormValid(s: Store, verb: Method, input: PostInput) {
    && verb == POST
    && input.valid
    && input.category.Some? && input.category.value in s.categories
    && (input.location.Some? ==> input.location.value in s.locations)
  }

  /** `form.is_valid()` of a comment form, bound only to POST data. */
  predicate CommentFormValid(verb: Method, input: CommentInput) {
    verb == POST && input.valid
  }

  /** Saving a post form over an existing post: the form's fields change,
      the author and the creation time stay. */
  function ApplyPostForm(p: Post, input: PostInput): (q: Post)
    ensures q.author == p.author && q.createdAt == p.createdAt
    ensures q.title == input.title && q.text == input.text && q.pubDate == input.pubDate
    ensures q.category == input.category && q.location == input.location && q.image == input.image
    ensures input.isPublished.Some? ==> q.isPublished == input.isPublished.value
    ensures input.isPublished.None? ==> q.isPublished == p.isPublished
  {
    p.(title := input.title, text := input.text, pubDate := input.pubDate,
       isPublished := input.isPublished.GetOr(p.isPublished),
       category := input.category, location := input.location, image := input.image)
  }

  /** The logged-in actor wrote comment `cid`. */
  predicate IsCommentAuthor(s: Store, actor: Option<UserId>, cid: CommentId) {
    Authenticated(s, actor) && cid in s.comments && s.comments[cid].author == actor.value
  }

  /** `get_object_or_404(post.comments, pk=comment_id)` succeeds. */
  predicate CommentOfPost(s: Store, pid: PostId, cid: CommentId) {
    cid in s.comments && s.comments[cid].post == pid
  }

  /** `post_create`. */
  function PostCreate(s: Store, actor: Option<UserId>, verb: Method, input: PostInput, now: int): (r: Outcome)
    ensures !Authenticated(s, actor) ==> r == Outcome(Unauthenticated, s)
    ensures Authenticated(s, actor) && !PostFormValid(s, verb, input) ==>
      r == Outcome(Render(PostFormView(None)), s)
    ensures Authenticated(s, actor) && PostFormValid(s, verb, input) ==>
      && r.response == Redirect(ProfileOf(s.users[actor.value].username))
      && r.store == s.(posts := r.store.posts, nextPost := r.store.nextPost)
      && var id := s.nextPost;
         && r.store.posts.Keys == s.posts.Keys + {id}
         && (SequencesAhead(s) ==> id !in s.posts && forall k :: k in s.posts ==> r.store.posts[k] == s.posts[k])
         && r.store.posts[id] == NewPost(input.title, input.text, input.pubDate, actor.value,
                                         input.category, input.location, input.image,
                                         input.isPublished, now)
    ensures SequencesAhead(s) ==> SequencesAhead(r.store)
  {
    if !Authenticated(s, actor) then Outcome(Unauthenticated, s)
    else if PostFormValid(s, verb, input) then
      var id := s.nextPost;
      var p := NewPost(input.title, input.text, input.pubDate, actor.value,
                       input.category, input.location, input.image, input.isPublished, now);
      Outcome(Redirect(ProfileOf(s.users[actor.value].username)),
              s.(posts := s.posts[id := p], nextPost := id + 1))
    else Outcome(Render(PostFormView(None)), s)
  }

  /** `post_edit`. */
  function PostEdit(s: Store, actor: Option<UserId>, pid: PostId, verb: Method, input: PostInput): (r: Outcome)
    ensures !Authenticated(s, actor) ==> r == Outcome(Unauthenticated, s)
    ensures Authenticated(s, actor) && pid !in s.posts ==> r == Outcome(NotFound, s)
    ensures Authenticated(s, actor) && pid in s.posts && !IsAuthor(s, actor, pid) ==>
      r == Outcome(Redirect(PostDetailOf(pid)), s)
    ensures IsAuthor(s, actor, pid) && !PostFormValid(s, verb, input) ==>
      r == Outcome(Render(PostFormView(Some(pid))), s)
    ensures IsAuthor(s, actor, pid) && PostFormValid(s, verb, input) ==>
      && r.response == Redirect(PostDetailOf(pid))
      && r.store == s.(posts := s.posts[pid := ApplyPostForm(s.posts[pid], input)])
    ensures r.store != s ==> IsAuthor(s, actor, pid) && PostFormValid(s, verb, input)
  {
    if !Authenticated(s, actor) then Outcome(Unauthenticated, s)
    else if pid !in s.posts then Outcome(NotFound, s)
    else if s.posts[pid].author != actor.value then Outcome(Redirect(PostDetailOf(pid)), s)
    else if PostFormValid(s, verb, input) then
      Outcome(Redirect(PostDetailOf(pid)), s.(posts := s.posts[pid := ApplyPostForm(s.posts[pid], input)]))
    else Outcome(Render(PostFormView(Some(pid))), s)
  }

  /** `post_delete`. */
  function PostDelete(s: Store, actor: Option<UserId>, pid: PostId, verb: Method): (r: Outcome)
    ensures !Authenticated(s, actor) ==> r == Outcome(Unauthenticated, s)
    ensures Authenticated(s, actor) && pid !in s.posts ==> r == Outcome(NotFound, s)
    ensures Authenticated(s, actor) && pid in s.posts && !IsAuthor(s, actor, pid) ==>
      r == Outcome(Redirect(PostDetailOf(pid)), s)
    ensures IsAuthor(s, actor, pid) && verb == GET ==>
      r == Outcome(Render(PostFormView(Some(pid))), s)
    ensures IsAuthor(s, actor, pid) && verb == POST ==>
      && r.response == Redirect(ProfileOf(s.users[actor.value].username))
      && pid !in r.store.posts
      && r.store == DeletePost(s, pid)
    ensures r.store != s ==> IsAuthor(s, actor, pid) && verb == POST
  {
    if !Authenticated(s, actor) then Outcome(Unauthenticated, s)
    else if pid !in s.posts then Outcome(NotFound, s)
    else if s.posts[pid].author != actor.value then Outcome(Redirect(PostDetailOf(pid)), s)
    else if verb == POST then
      Outcome(Redirect(ProfileOf(s.users[actor.value].username)), DeletePost(s, pid))
    else Outcome(Render(PostFormView(Some(pid))), s)
  }

  /** `comment_create`: any existing post, visible or not, can be commented
      on; the answer is the detail page whether or not the form was valid. */
  function CommentCreate(s: Store, actor: Option<UserId>, pid: PostId, verb: Method,
                         input: CommentInput, now: int): (r: Outcome)
    ensures !Authenticated(s, actor) ==> r == Outcome(Unauthenticated, s)
    ensures Authenticated(s, actor) && pid !in s.posts ==> r == Outcome(NotFound, s)
    ensures Authenticated(s, actor) && pid in s.posts ==> r.response == Redirect(PostDetailOf(pid))
    ensures r.store != s ==> Authenticated(s, actor) && pid in s.posts && CommentFormValid(verb, input)
    ensures Authenticated(s, actor) && pid in s.posts && CommentFormValid(verb, input) ==>
      && r.store == s.(comments := r.store.comments, nextComment := r.store.nextComment)
      && var id := s.nextComment;
         && r.store.comments.Keys == s.comments.Keys + {id}
         && (SequencesAhead(s) ==> id !in s.comments && forall k :: k in s.comments ==> r.store.comments[k] == s.comments[k])
         && r.store.comments[id] == Comment(pid, actor.value, input.text, now)
    ensures SequencesAhead(s) ==> SequencesAhead(r.store)
  {
    if !Authenticated(s, actor) then Outcome(Unauthenticated, s)
    else if pid !in s.posts then Outcome(NotFound, s)
    else if CommentFormValid(verb, input) then
      var id := s.nextComment;
      Outcome(Redirect(PostDetailOf(pid)),
              s.(comments := s.comments[id := Comment(pid, actor.value, input.text, now)],
                 nextComment := id + 1))
    else Outcome(Redirect(PostDetailOf(pid)), s)
  }

  /** `comment_edit`. */
  function CommentEdit(s: Store, actor: Option<UserId>, pid: PostId, cid: CommentId, verb: Method,
                       input: CommentInput): (r: Outcome)
    ensures !Authenticated(s, actor) ==> r == Outcome(Unauthenticated, s)
    ensures Authenticated(s, actor) ==>
      (r.response.NotFound? <==> pid !in s.posts || !CommentOfPost(s, pid, cid))
    ensures r.response.NotFound? ==> r.store == s
    ensures Authenticated(s, actor) && pid in s.posts && CommentOfPost(s, pid, cid)
            && !IsCommentAuthor(s, actor, cid) ==>
      r == Outcome(Redirect(PostDetailOf(pid)), s)
    ensures pid in s.posts && CommentOfPost(s, pid, cid) && IsCommentAuthor(s, actor, cid) ==>
      if CommentFormValid(verb, input) then
        r == Outcome(Redirect(PostDetailOf(pid)),
                     s.(comments := s.comments[cid := s.comments[cid].(text := input.text)]))
      else r == Outcome(Render(CommentView(pid, cid, true)), s)
    ensures r.store != s ==> IsCommentAuthor(s, actor, cid) && CommentOfPost(s, pid, cid)
                             && CommentFormValid(verb, input)
  {
    if !Authenticated(s, actor) then Outcome(Unauthenticated, s)
    else if pid !in s.posts then Outcome(NotFound, s)
    else if !CommentOfPost(s, pid, cid) then Outcome(NotFound, s)
    else if s.comments[cid].author != actor.value then Outcome(Redirect(PostDetailOf(pid)), s)
    else if CommentFormValid(verb, input) then
      Outcome(Redirect(PostDetailOf(pid)),
              s.(comments := s.comments[cid := s.comments[cid].(text := input.text)]))
    else Outcome(Render(CommentView(pid, cid, true)), s)
  }

  /** `comment_delete`. */
  function CommentDelete(s: Store, actor: Option<UserId>, pid: PostId, cid: CommentId, verb: Method): (r: Outcome)
    ensures !Authenticated(s, actor) ==> r == Outcome(Unauthenticated, s)
    ensures Authenticated(s, actor) ==>
      (r.response.NotFound? <==> pid !in s.posts || !CommentOfPost(s, pid, cid))
    ensures r.response.NotFound? ==> r.store == s
    ensures Authenticated(s, actor) && pid in s.posts && CommentOfPost(s, pid, cid)
            && !IsCommentAuthor(s, actor, cid) ==>
      r == Outcome(Redirect(PostDetailOf(pid)), s)
    ensures pid in s.posts && CommentOfPost(s, pid, cid) && IsCommentAuthor(s, actor, cid) ==>
      if verb == POST then
        r == Outcome(Redirect(PostDetailOf(pid)), DeleteComment(s, cid)) && cid !in r.store.comments
      else r == Outcome(Render(CommentView(pid, cid, false)), s)
    ensures r.store != s ==> IsCommentAuthor(s, actor, cid) && CommentOfPost(s, pid, cid) && verb == POST
  {
    if !Authenticated(s, actor) then Outcome(Unauthenticated, s)
    else if pid !in s.posts then Outcome(NotFound, s)
    else if !CommentOfPost(s, pid, cid) then Outcome(NotFound, s)
    else if s.comments[cid].author != actor.value then Outcome(Redirect(PostDetailOf(pid)), s)
    else if verb == POST then Outcome(Redirect(PostDetailOf(pid)), DeleteComment(s, cid))
    else Outcome(Render(CommentView(pid, cid, false)), s)
  }

  /** The mutating routes of blog/urls.py with their parameters. */
  datatype Request =
    | CreatePost(verb: Method, postInput: PostInput)
    | EditPost(postId: PostId, verb: Method, postInput: PostInput)
    | RemovePost(postId: PostId, verb: Method)
    | AddComment(postId: PostId, verb: Method, commentInput: CommentInput)
    | EditComment(postId: PostId, commentId: CommentId, verb: Method, commentInput: CommentInput)
    | RemoveComment(postId: PostId, commentId: CommentId, verb: Method)

  function Handle(s: Store, actor: Option<UserId>, req: Request, now: int): (r: Outcome)
    ensures !Authenticated(s, actor) ==> r == Outcome(Unauthenticated, s)
    ensures r.response.NotFound? ==> r.store == s
  {
    match req
    case CreatePost(m, input) => PostCreate(s, actor, m, input, now)
    case EditPost(pid, m, input) => PostEdit(s, actor, pid, m, input)
    case RemovePost(pid, m) => PostDelete(s, actor, pid, m)
    case AddComment(pid, m, input) => CommentCreate(s, actor, pid, m, input, now)
    case EditComment(pid, cid, m, input) => CommentEdit(s, actor, pid, cid, m, input)
    case RemoveComment(pid, cid, m) => CommentDelete(s, actor, pid, cid, m)
  }

  /** Creating a post keeps the store valid: the new post's author,
      category and location exist, and the post sequence moves past it. */
  lemma PostCreatePreservesValid(s: Store, actor: Option<UserId>, verb: Method, input: PostInput, now: int)
    requires Valid(s)
    ensures Valid(PostCreate(s, actor, verb, input, now).store)
  {
  }

  /** Editing a post keeps the store valid: the form only accepts existing
      categories and locations. */
  lemma PostEditPreservesValid(s: Store, actor: Option<UserId>, pid: PostId, verb: Method, input: PostInput)
    requires Valid(s)
    ensures Valid(PostEdit(s, actor, pid, verb, input).store)
  {
    var r := PostEdit(s, actor, pid, verb, input).store;
    if IsAuthor(s, actor, pid) && PostFormValid(s, verb, input) {
      forall k | k in r.posts ensures PostRefsExist(r, r.posts[k]) {
        assert PostRefsExist(s, s.posts[k]);
      }
      forall c | c in r.comments ensures CommentRefsExist(r, r.comments[c]) {
        assert CommentRefsExist(s, s.comments[c]);
      }
    }
  }

  /** Deleting a post keeps the store valid: its comments go with it. */
  lemma PostDeletePreservesValid(s: Store, actor: Option<UserId>, pid: PostId, verb: Method)
    requires Valid(s)
    ensures Valid(PostDelete(s, actor, pid, verb).store)
  {
    if IsAuthor(s, actor, pid) && verb == POST {
      DeletePostPreservesValid(s, pid);
    }
  }

  /** Adding a comment keeps the store valid. */
  lemma CommentCreatePreservesValid(s: Store, actor: Option<UserId>, pid: PostId, verb: Method,
                                    input: CommentInput, now: int)
    requires Valid(s)
    ensures Valid(CommentCreate(s, actor, pid, verb, input, now).store)
  {
  }

  /** Editing a comment keeps the store valid. */
  lemma CommentEditPreservesValid(s: Store, actor: Option<UserId>, pid: PostId, cid: CommentId, verb: Method,
                                  input: CommentInput)
    requires Valid(s)
    ensures Valid(CommentEdit(s, actor, pid, cid, verb, input).store)
  {
  }

  /** Deleting a comment keeps the store valid. */
  lemma CommentDeletePreservesValid(s: Store, actor: Option<UserId>, pid: PostId, cid: CommentId, verb: Method)
    requires Valid(s)
    ensures Valid(CommentDelete(s, actor, pid, cid, verb).store)
  {
    if IsCommentAuthor(s, actor, cid) && verb == POST {
      DeleteCommentPreservesValid(s, cid);
    }
  }

  /** Every handler keeps the store's referential integrity and the
      uniqueness of slugs and usernames. */
  lemma HandlePreservesValid(s: Store, actor: Option<UserId>, req: Request, now: int)
    requires Valid(s)
    ensures Valid(Handle(s, actor, req, now).store)
  {
    match req
    case CreatePost(m, input) => PostCreatePreservesValid(s, actor, m, input, now);
    case EditPost(pid, m, input) => PostEditPreservesValid(s, actor, pid, m, input);
    case RemovePost(pid, m) => PostDeletePreservesValid(s, actor, pid, m);
    case AddComment(pid, m, input) => CommentCreatePreservesValid(s, actor, pid, m, input, now);
    case EditComment(pid, cid, m, input) => CommentEditPreservesValid(s, actor, pid, cid, m, input);
    case RemoveComment(pid, cid, m) => CommentDeletePreservesValid(s, actor, pid, cid, m);
  }

  /** A run of requests from any valid store: the integrity rules hold after
      every step. */
  lemma {:induction false} RunPreservesValid(s: Store, steps: seq<(Option<UserId>, Request, int)>)
    requires Valid(s)
    ensures Valid(Run(s, steps))
    decreases |steps|
  {
    if steps != [] {
      HandlePreservesValid(s, steps[0].0, steps[0].1, steps[0].2);
      RunPreservesValid(Handle(s, steps[0].0, steps[0].1, steps[0].2).store, steps[1..]);
    }
  }

  /** Applies a sequence of (actor, request, time) steps in order. */
  function Run(s: Store, steps: seq<(Option<UserId>, Request, int)>): Store
    decreases |steps|
  {
    if steps == [] then s
    else Run(Handle(s, steps[0].0, steps[0].1, steps[0].2).store, steps[1..])
  }
}
