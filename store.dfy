/**
 * The back end's request handlers as operations on an in-memory store of
 * users, posts and comments. Each collection is kept in creation order, and a
 * single creation counter (`clock`) hands out identifiers, so a record's id is
 * also its creation time.
 */
module Store {
  import opened Wrappers
  import opened Seqs
  import opened Strings
  import opened Records
  import opened Policy
  import opened Pagination

  /** A route parameter or body field meant to hold an ObjectId. */
  datatype ObjectIdParam = Given(id: nat) | Malformed | Missing

  /** The payload of a successful register or login: the signed claims and the user without password. */
  datatype Session = Session(claims: Claims, user: UserView)

  /** A post of the public listing, with `commentCount` attached. */
  datatype Listed = Listed(post: Post, commentCount: nat)
  datatype Listing = Listing(posts: seq<Listed>, pagination: PageInfo)
  datatype OwnListing = OwnListing(posts: seq<Post>, pagination: PageInfo)
  datatype Profile = Profile(user: UserView, postCount: nat)

  /** A request to one of the routes behind the `authenticateToken` middleware. */
  datatype ProtectedRequest =
    | CreatePostRequest(title: string, content: string, tags: Option<seq<string>>)
    | UpdatePostRequest(postId: ObjectIdParam, title: string, content: string, tags: Option<seq<string>>)
    | DeletePostRequest(postId: ObjectIdParam)
    | CreateCommentRequest(content: string, postId: ObjectIdParam)
    | DeleteCommentRequest(commentId: ObjectIdParam)
    | ProfileRequest
    | OwnPostsRequest(page: Option<nat>, limit: Option<nat>)

  /** The payload of a successful protected request. */
  datatype Reply =
    | PostReply(post: Post)
    | CommentReply(comment: Comment)
    | DeletedReply
    | ProfileReply(profile: Profile)
    | OwnPostsReply(listing: OwnListing)

  /** The post a reply carries (a reply of another kind reads as a server error). */
  function PostOf(r: Result<Reply, ApiError>): Result<Post, ApiError> {
    if r.Err? then Err(r.error) else if r.value.PostReply? then Ok(r.value.post) else Err(Internal)
  }

  /** The comment a reply carries (a reply of another kind reads as a server error). */
  function CommentOf(r: Result<Reply, ApiError>): Result<Comment, ApiError> {
    if r.Err? then Err(r.error) else if r.value.CommentReply? then Ok(r.value.comment) else Err(Internal)
  }

  /** Whether a reply reports a deletion (a reply of another kind reads as a server error). */
  function DoneOf(r: Result<Reply, ApiError>): Result<(), ApiError> {
    if r.Err? then Err(r.error) else if r.value.DeletedReply? then Ok(()) else Err(Internal)
  }

  /** The reply for a handler's post result. */
  function PostReplyOf(res: Result<Post, ApiError>): (r: Result<Reply, ApiError>)
    ensures PostOf(r) == res
  {
    if res.Ok? then Ok(PostReply(res.value)) else Err(res.error)
  }

  /** The reply for a handler's comment result. */
  function CommentReplyOf(res: Result<Comment, ApiError>): (r: Result<Reply, ApiError>)
    ensures CommentOf(r) == res
  {
    if res.Ok? then Ok(CommentReply(res.value)) else Err(res.error)
  }

  /** The reply for a handler's deletion result. */
  function DoneReplyOf(res: Result<(), ApiError>): (r: Result<Reply, ApiError>)
    ensures DoneOf(r) == res
  {
    match res
    case Ok(()) => Ok(DeletedReply)
    case Err(e) => Err(e)
  }

  // ----- Queries over the collections -----

  predicate EmailRegistered(users: seq<User>, email: string) {
    exists u :: u in users && u.email == email
  }

  predicate HasPost(posts: seq<Post>, id: nat) {
    exists p :: p in posts && p.id == id
  }

  predicate HasComment(comments: seq<Comment>, id: nat) {
    exists c :: c in comments && c.id == id
  }

  /** `User.findOne({ email })`. */
  function FindUserByEmail(users: seq<User>, email: string): (r: Option<nat>)
    ensures r.Some? ==> r.value < |users| && users[r.value].email == email
    ensures r.None? <==> !EmailRegistered(users, email)
  {
    IndexOf(users, (u: User) => u.email == email)
  }

  /**
   * `User.findOne({ email })` on a request body's e-mail field. Mongoose drops
   * a filter key whose value is `undefined`, so without an e-mail the query is
   * `findOne({})`, which returns the first user in natural order (creation
   * order here) whenever there is one.
   */
  function FindOneByEmail(users: seq<User>, email: Option<string>): (r: Option<nat>)
    ensures r.Some? ==> r.value < |users|
    ensures email.Some? ==> (r.Some? ==> users[r.value].email == Lower(email.value))
    ensures email.Some? ==> (r.None? <==> !EmailRegistered(users, Lower(email.value)))
    ensures email.None? ==> (r.None? <==> users == []) && (r.Some? ==> r.value == 0)
  {
    match email
    case None => if users == [] then None else Some(0)
    case Some(e) => FindUserByEmail(users, Lower(e))
  }

  /** `User.findById(id)`. */
  function FindUser(users: seq<User>, id: nat): (r: Option<nat>)
    ensures r.Some? ==> r.value < |users| && users[r.value].id == id
    ensures r.None? <==> forall u :: u in users ==> u.id != id
  {
    IndexOf(users, (u: User) => u.id == id)
  }

  /** `Post.findById(id)`. */
  function FindPost(posts: seq<Post>, id: nat): (r: Option<nat>)
    ensures r.Some? ==> r.value < |posts| && posts[r.value].id == id
    ensures r.None? <==> !HasPost(posts, id)
  {
    IndexOf(posts, (p: Post) => p.id == id)
  }

  /** `Comment.findById(id)`. */
  function FindComment(comments: seq<Comment>, id: nat): (r: Option<nat>)
    ensures r.Some? ==> r.value < |comments| && comments[r.value].id == id
    ensures r.None? <==> !HasComment(comments, id)
  {
    IndexOf(comments, (c: Comment) => c.id == id)
  }

  predicate IsPublished(p: Post) { p.isPublished }

  /** `Post.find({ isPublished: true }).sort({ createdAt: -1 })`. */
  function PublishedFeed(posts: seq<Post>): seq<Post> {
    Reverse(Filter(posts, IsPublished))
  }

  /** `Post.find({ author }).sort({ createdAt: -1 })`. */
  function WrittenBy(posts: seq<Post>, author: nat): seq<Post> {
    Reverse(Filter(posts, (p: Post) => p.author == author))
  }

  /** `Comment.find({ post: postId }).sort({ createdAt: 1 })`. */
  function CommentsOn(comments: seq<Comment>, postId: nat): seq<Comment> {
    Filter(comments, (c: Comment) => c.post == postId)
  }

  /** The posts left after `Post.findByIdAndDelete(id)`. */
  function PostsWithout(posts: seq<Post>, id: nat): seq<Post> {
    Filter(posts, (p: Post) => p.id != id)
  }

  /** The comments left after `Comment.deleteMany({ post: postId })`. */
  function CommentsNotOn(comments: seq<Comment>, postId: nat): seq<Comment> {
    Filter(comments, (c: Comment) => c.post != postId)
  }

  /** The comments left after `Comment.findByIdAndDelete(id)`. */
  function CommentsWithout(comments: seq<Comment>, id: nat): seq<Comment> {
    Filter(comments, (c: Comment) => c.id != id)
  }

  /** The public feed holds exactly the published posts, newest first. */
  lemma FeedNewestFirst(posts: seq<Post>)
    requires Ascending(posts, PostId)
    ensures var feed := PublishedFeed(posts);
      && Descending(feed, PostId)
      && (forall i :: 0 <= i < |feed| ==> feed[i] in posts && feed[i].isPublished)
      && (forall i :: 0 <= i < |posts| && posts[i].isPublished ==> posts[i] in feed)
  {
    NewestFirst(posts, IsPublished, PostId);
  }

  /** A user's own listing holds exactly that user's posts, newest first. */
  lemma OwnPostsNewestFirst(posts: seq<Post>, author: nat)
    requires Ascending(posts, PostId)
    ensures var mine := WrittenBy(posts, author);
      && Descending(mine, PostId)
      && (forall i :: 0 <= i < |mine| ==> mine[i] in posts && mine[i].author == author)
      && (forall i :: 0 <= i < |posts| && posts[i].author == author ==> posts[i] in mine)
  {
    NewestFirst(posts, (p: Post) => p.author == author, PostId);
  }

  /**
   * The cascade of a post deletion: the post and every comment on it are gone,
   * and every other post and comment is still there, in its original order.
   */
  lemma CascadeDeletes(posts: seq<Post>, comments: seq<Comment>, id: nat)
    ensures forall p :: p in PostsWithout(posts, id) <==> p in posts && p.id != id
    ensures forall c :: c in CommentsNotOn(comments, id) <==> c in comments && c.post != id
    ensures !HasPost(PostsWithout(posts, id), id)
    ensures CommentsOn(CommentsNotOn(comments, id), id) == []
  {
    var rest := CommentsNotOn(comments, id);
    forall c | c in PostsWithout(posts, id) ensures c.id != id {
      var i :| 0 <= i < |PostsWithout(posts, id)| && PostsWithout(posts, id)[i] == c;
    }
    FilterKeepsNone(rest, (c: Comment) => c.post == id);
  }

  // ----- The store invariant -----

  predicate UniqueEmails(users: seq<User>) {
    forall i, j :: 0 <= i < j < |users| ==> users[i].email != users[j].email
  }

  /**
   * The store invariant over the collections: records in creation order with
   * identifiers below the counter, every record within its schema, e-mails
   * unique, and every comment attached to an existing post.
   */
  ghost predicate Consistent(isEmail: string -> bool, users: seq<User>, posts: seq<Post>, comments: seq<Comment>, clock: nat) {
    && Ascending(users, UserId) && Ascending(posts, PostId) && Ascending(comments, CommentId)
    && (forall u :: u in users ==> u.id < clock && ValidUser(u, isEmail))
    && (forall p :: p in posts ==> p.id < clock && ValidPost(p))
    && (forall c :: c in comments ==> c.id < clock && ValidComment(c) && HasPost(posts, c.post))
    && UniqueEmails(users)
  }

  /** Registering a valid user under an unused e-mail keeps the store consistent. */
  lemma RegisterKeepsConsistent(isEmail: string -> bool, users: seq<User>, posts: seq<Post>, comments: seq<Comment>, clock: nat, u: User)
    requires Consistent(isEmail, users, posts, comments, clock)
    requires u.id == clock && ValidUser(u, isEmail) && !EmailRegistered(users, u.email)
    ensures Consistent(isEmail, users + [u], posts, comments, clock + 1)
  {
    var s := users + [u];
    forall i, j | 0 <= i < j < |s| ensures s[i].email != s[j].email {
      if j == |users| {
        assert s[i] in users;
      }
    }
  }

  /** Adding a valid post keeps the store consistent. */
  lemma CreatePostKeepsConsistent(isEmail: string -> bool, users: seq<User>, posts: seq<Post>, comments: seq<Comment>, clock: nat, p: Post)
    requires Consistent(isEmail, users, posts, comments, clock)
    requires p.id == clock && ValidPost(p)
    ensures Consistent(isEmail, users, posts + [p], comments, clock + 1)
  {
    forall c | c in comments ensures HasPost(posts + [p], c.post) {
      var q :| q in posts && q.id == c.post;
      assert q in posts + [p];
    }
  }

  /** Replacing a post by a valid post with the same identifier keeps the store consistent. */
  lemma UpdatePostKeepsConsistent(isEmail: string -> bool, users: seq<User>, posts: seq<Post>, comments: seq<Comment>, clock: nat, i: nat, q: Post)
    requires Consistent(isEmail, users, posts, comments, clock)
    requires i < |posts| && q.id == posts[i].id && ValidPost(q)
    ensures Consistent(isEmail, users, posts[i := q], comments, clock)
  {
    var s := posts[i := q];
    forall p | p in s ensures p.id < clock && ValidPost(p) {
      var k :| 0 <= k < |s| && s[k] == p;
      if k != i {
        assert posts[k] in posts;
      } else {
        assert posts[i] in posts;
      }
    }
    forall c | c in comments ensures HasPost(s, c.post) {
      var o :| o in posts && o.id == c.post;
      var k :| 0 <= k < |posts| && posts[k] == o;
      assert s[k] in s && s[k].id == o.id;
    }
  }

  /** Deleting a post together with its comments keeps the store consistent: no comment is orphaned. */
  lemma DeletePostKeepsConsistent(isEmail: string -> bool, users: seq<User>, posts: seq<Post>, comments: seq<Comment>, clock: nat, id: nat)
    requires Consistent(isEmail, users, posts, comments, clock)
    ensures Consistent(isEmail, users, PostsWithout(posts, id), CommentsNotOn(comments, id), clock)
  {
    var ps := PostsWithout(posts, id);
    var cs := CommentsNotOn(comments, id);
    FilterAscending(posts, (p: Post) => p.id != id, PostId);
    FilterAscending(comments, (c: Comment) => c.post != id, CommentId);
    CascadeDeletes(posts, comments, id);
    forall c | c in cs ensures HasPost(ps, c.post) {
      var o :| o in posts && o.id == c.post;
      assert o in ps;
    }
  }

  /** Deleting a comment keeps the store consistent. */
  lemma DeleteCommentKeepsConsistent(isEmail: string -> bool, users: seq<User>, posts: seq<Post>, comments: seq<Comment>, clock: nat, id: nat)
    requires Consistent(isEmail, users, posts, comments, clock)
    ensures Consistent(isEmail, users, posts, CommentsWithout(comments, id), clock)
  {
    var cs := CommentsWithout(comments, id);
    FilterAscending(comments, (c: Comment) => c.id != id, CommentId);
    forall c | c in cs ensures c in comments {
      var k :| 0 <= k < |cs| && cs[k] == c;
    }
  }

  /** Adding a valid comment to an existing post keeps the store consistent. */
  lemma CreateCommentKeepsConsistent(isEmail: string -> bool, users: seq<User>, posts: seq<Post>, comments: seq<Comment>, clock: nat, c: Comment)
    requires Consistent(isEmail, users, posts, comments, clock)
    requires c.id == clock && ValidComment(c) && HasPost(posts, c.post)
    ensures Consistent(isEmail, users, posts, comments + [c], clock + 1)
  {
  }

  /** What `bcrypt.compare` rejects with when the candidate is not a string: a plain `Error`. */
  const CompareRejection := Thrown("Error", None, [])

  class BlogStore {
    /** The e-mail pattern of the user schema. */
    const isEmail: string -> bool
    var users: seq<User>
    var posts: seq<Post>
    var comments: seq<Comment>
    /** The creation counter: the next identifier (and creation time) to hand out. */
    var clock: nat

    ghost predicate Valid()
      reads this
    {
      Consistent(isEmail, users, posts, comments, clock)
    }

    constructor (isEmail: string -> bool)
      ensures Valid()
      ensures this.isEmail == isEmail && users == [] && posts == [] && comments == [] && clock == 0
    {
      this.isEmail := isEmail;
      users, posts, comments, clock := [], [], [], 0;
    }

    // ----- Auth routes -----

    /**
     * POST /api/auth/register. The body's fields may be absent. The schema's
     * `required` validators reject an absent field as they reject an empty one,
     * but the duplicate check runs first, and without an e-mail it finds any
     * user at all.
     */
    method Register(name: Option<string>, email: Option<string>, password: Option<string>)
      returns (r: Result<Session, ApiError>)
      requires Valid()
      modifies this
      ensures Valid()
      ensures email.None? && old(users) != [] ==> r == Err(DuplicateEmail) && unchanged(this)
      ensures email.Some? && EmailRegistered(old(users), Lower(email.value)) ==> r == Err(DuplicateEmail) && unchanged(this)
      ensures (if email.None? then old(users) == [] else !EmailRegistered(old(users), Lower(email.value))) ==>
                var errors := UserErrors(name.GetOr(""), email.GetOr(""), password.GetOr(""), isEmail);
                var u := NewUser(old(clock), name.GetOr(""), email.GetOr(""), password.GetOr(""));
                if errors != [] then r == Err(ValidationFailed(errors)) && unchanged(this)
                else && r == Ok(Session(ClaimsOf(u), ViewOf(u)))
                     && users == old(users) + [u] && posts == old(posts) && comments == old(comments)
                     && clock == old(clock) + 1
    {
      if FindOneByEmail(users, email).Some? {
        return Err(DuplicateEmail);
      }
      r := Enrol(name.GetOr(""), email.GetOr(""), password.GetOr(""));
    }

    /** `new User({ name, email, password }).save()` under an unused e-mail, and the session it opens. */
    method Enrol(name: string, email: string, password: string) returns (r: Result<Session, ApiError>)
      requires Valid() && !EmailRegistered(users, Lower(email))
      modifies this
      ensures Valid()
      ensures var errors := UserErrors(name, email, password, isEmail);
        var u := NewUser(old(clock), name, email, password);
        if errors != [] then r == Err(ValidationFailed(errors)) && unchanged(this)
        else && r == Ok(Session(ClaimsOf(u), ViewOf(u)))
             && users == old(users) + [u] && posts == old(posts) && comments == old(comments)
             && clock == old(clock) + 1
    {
      var errors := UserErrors(name, email, password, isEmail);
      if errors != [] {
        return Err(ValidationFailed(errors));
      }
      var u := NewUser(clock, name, email, password);
      AddUser(u);
      r := Ok(Session(ClaimsOf(u), ViewOf(u)));
    }

    /** Stores a valid user under an unused e-mail, with the next identifier. */
    method AddUser(u: User)
      requires Valid() && u.id == clock && ValidUser(u, isEmail) && !EmailRegistered(users, u.email)
      modifies this
      ensures Valid()
      ensures users == old(users) + [u] && posts == old(posts) && comments == old(comments) && clock == old(clock) + 1
    {
      RegisterKeepsConsistent(isEmail, users, posts, comments, clock, u);
      users := users + [u];
      clock := clock + 1;
    }

    /**
     * POST /api/auth/login, as written. With both fields present, an unknown
     * e-mail and a wrong password give the same 401. Without a password,
     * `bcrypt.compare(undefined, hash)` rejects, and `errorHandler` turns that
     * into a 500, but only for a registered e-mail. Without an e-mail, the
     * lookup is `findOne({})` and the password is checked against the first user.
     */
    function Login(email: Option<string>, password: Option<string>): (r: Result<Session, ApiError>)
      reads this
      requires Valid()
      ensures email.Some? && password.Some? ==>
                && (r.Err? ==> r.error == InvalidCredentials)
                && (r.Ok? <==> exists u :: u in users && u.email == Lower(email.value) && Matches(u.password, password.value))
                && (r.Ok? ==> exists u :: u in users && u.email == Lower(email.value) && r.value == Session(ClaimsOf(u), ViewOf(u)))
      ensures email.Some? && password.None? ==>
                r == if EmailRegistered(users, Lower(email.value)) then Err(Internal) else Err(InvalidCredentials)
      ensures email.None? && users == [] ==> r == Err(InvalidCredentials)
      ensures email.None? && users != [] && password.None? ==> r == Err(Internal)
      ensures email.None? && users != [] && password.Some? ==>
                r == if Matches(users[0].password, password.value) then Ok(Session(ClaimsOf(users[0]), ViewOf(users[0])))
                     else Err(InvalidCredentials)
    {
      match FindOneByEmail(users, email)
      case None => Err(InvalidCredentials)
      case Some(i) =>
        if password.None? then Err(Classify(CompareRejection))
        else if Matches(users[i].password, password.value) then Ok(Session(ClaimsOf(users[i]), ViewOf(users[i])))
        else Err(InvalidCredentials)
    }

    /**
     * The login the handler evidently means: a body without an e-mail or
     * without a password is answered like any other failed login, so every
     * failure is the same 401 and no user is found without an e-mail.
     */
    function CheckedLogin(email: Option<string>, password: Option<string>): (r: Result<Session, ApiError>)
      reads this
      requires Valid()
      ensures r.Err? ==> r.error == InvalidCredentials
      ensures r.Ok? <==> && email.Some? && password.Some?
                         && exists u :: u in users && u.email == Lower(email.value) && Matches(u.password, password.value)
      ensures r.Ok? ==> exists u :: u in users && u.email == Lower(email.value) && r.value == Session(ClaimsOf(u), ViewOf(u))
      ensures email.Some? && password.Some? ==> r == Login(email, password)
    {
      if email.None? || password.None? then Err(InvalidCredentials) else Login(email, password)
    }

    // ----- Post routes -----

    /** GET /api/posts?page&limit: a window of the published posts, newest first, with comment counts. */
    function ListPublished(page: Option<nat>, limit: Option<nat>): (r: Listing)
      reads this
      ensures var pg := OrDefault(page, DefaultPage);
        var lim := OrDefault(limit, DefaultLimit);
        var feed := PublishedFeed(posts);
        && r.pagination == Envelope(pg, lim, |feed|)
        && |r.posts| == (if Skip(pg, lim) >= |feed| then 0 else Min(lim, |feed| - Skip(pg, lim)))
        && forall i :: 0 <= i < |r.posts| ==>
             r.posts[i].post == feed[Skip(pg, lim) + i]
             && r.posts[i].commentCount == |CommentsOn(comments, r.posts[i].post.id)|
    {
      var all := comments;
      var listed := Paginate(PublishedFeed(posts), page, limit);
      Listing(Map(listed.0, (p: Post) => Listed(p, |CommentsOn(all, p.id)|)), listed.1)
    }

    /** GET /api/posts/:id. */
    function GetPost(id: ObjectIdParam): (r: Result<Post, ApiError>)
      reads this
      ensures id.Malformed? ==> r == Err(InvalidId)
      ensures id.Missing? ==> r == Err(NotFound(PostResource))
      ensures id.Given? ==> (r.Ok? <==> HasPost(posts, id.id))
      ensures id.Given? && r.Err? ==> r.error == NotFound(PostResource)
      ensures r.Ok? ==> r.value in posts && r.value.id == id.id
    {
      match id
      case Malformed => Err(InvalidId)
      case Missing => Err(NotFound(PostResource))
      case Given(n) =>
        match FindPost(posts, n)
        case None => Err(NotFound(PostResource))
        case Some(i) => Ok(posts[i])
    }

    /**
     * What POST /api/posts answers and does: the post built from the body, by
     * the requester, is appended with the next id when it is valid; otherwise
     * the validation messages come back and nothing changes.
     */
    twostate predicate PostCreated(who: Claims, title: string, content: string, tags: Option<seq<string>>,
                                   new r: Result<Post, ApiError>)
      reads this
    {
      var p := NewPost(old(clock), title, content, who.id, tags);
      if PostErrors(p) != [] then r == Err(ValidationFailed(PostErrors(p))) && unchanged(this)
      else && r == Ok(p)
           && posts == old(posts) + [p] && users == old(users) && comments == old(comments)
           && clock == old(clock) + 1
    }

    /** POST /api/posts: the requester becomes the author; `tags` defaults to the empty list. */
    method CreatePost(who: Claims, title: string, content: string, tags: Option<seq<string>>)
      returns (r: Result<Post, ApiError>)
      requires Valid()
      modifies this
      ensures Valid()
      ensures PostCreated(who, title, content, tags, r)
    {
      var p := NewPost(clock, title, content, who.id, tags);
      NewPostTrimmed(clock, title, content, who.id, tags);
      var errors := PostErrors(p);
      if errors != [] {
        return Err(ValidationFailed(errors));
      }
      AddPost(p);
      r := Ok(p);
    }

    /** Stores a valid post with the next identifier. */
    method AddPost(p: Post)
      requires Valid() && p.id == clock && ValidPost(p)
      modifies this
      ensures Valid()
      ensures posts == old(posts) + [p] && users == old(users) && comments == old(comments) && clock == old(clock) + 1
    {
      CreatePostKeepsConsistent(isEmail, users, posts, comments, clock, p);
      posts := posts + [p];
      clock := clock + 1;
    }

    /**
     * What PUT /api/posts/:id answers and does: 400 for a malformed id, 404 for
     * a missing post, 403 unless the requester may edit it, then the merged
     * post replaces it when valid; every rejection leaves the store unchanged.
     */
    twostate predicate PostUpdated(who: Claims, id: ObjectIdParam, title: string, content: string,
                                   tags: Option<seq<string>>, new r: Result<Post, ApiError>)
      requires old(Valid())
      reads this
    {
      && (id.Malformed? ==> r == Err(InvalidId) && unchanged(this))
      && (id.Missing? || (id.Given? && !HasPost(old(posts), id.id)) ==>
            r == Err(NotFound(PostResource)) && unchanged(this))
      && (id.Given? && HasPost(old(posts), id.id) ==>
            var i := FindPost(old(posts), id.id).value;
            var p := old(posts)[i];
            var q := Merge(p, title, content, tags);
            if !CanMutate(p.author, who) then r == Err(Forbidden(EditingPost)) && unchanged(this)
            else if PostErrors(q) != [] then r == Err(ValidationFailed(PostErrors(q))) && unchanged(this)
            else && r == Ok(q)
                 && posts == old(posts)[i := q] && users == old(users) && comments == old(comments)
                 && clock == old(clock))
    }

    /**
     * PUT /api/posts/:id: a missing post is a 404 before the owner-or-admin
     * check; then the body is merged into the post and the result validated.
     */
    method UpdatePost(who: Claims, id: ObjectIdParam, title: string, content: string, tags: Option<seq<string>>)
      returns (r: Result<Post, ApiError>)
      requires Valid()
      modifies this
      ensures Valid()
      ensures PostUpdated(who, id, title, content, tags, r)
    {
      match id
      case Malformed => return Err(InvalidId);
      case Missing => return Err(NotFound(PostResource));
      case Given(n) =>
        var found := FindPost(posts, n);
        if found.None? {
          return Err(NotFound(PostResource));
        }
        var i := found.value;
        var p := posts[i];
        if !CanMutate(p.author, who) {
          return Err(Forbidden(EditingPost));
        }
        var q := Merge(p, title, content, tags);
        var errors := PostErrors(q);
        if errors != [] {
          return Err(ValidationFailed(errors));
        }
        UpdatePostKeepsConsistent(isEmail, users, posts, comments, clock, i, q);
        posts := posts[i := q];
        r := Ok(q);
    }

    /**
     * What DELETE /api/posts/:id answers and does: 400, 404 and 403 as for an
     * update, with the store unchanged; otherwise the post's comments and then
     * the post are deleted, and nothing else changes.
     */
    twostate predicate PostDeleted(who: Claims, id: ObjectIdParam, new r: Result<(), ApiError>)
      reads this
    {
      && (id.Malformed? ==> r == Err(InvalidId) && unchanged(this))
      && (id.Missing? || (id.Given? && !HasPost(old(posts), id.id)) ==>
            r == Err(NotFound(PostResource)) && unchanged(this))
      && (id.Given? && HasPost(old(posts), id.id) ==>
            var p := old(posts)[FindPost(old(posts), id.id).value];
            if !CanMutate(p.author, who) then r == Err(Forbidden(DeletingPost)) && unchanged(this)
            else && r == Ok(())
                 && posts == PostsWithout(old(posts), id.id)
                 && comments == CommentsNotOn(old(comments), id.id)
                 && users == old(users) && clock == old(clock))
    }

    /**
     * DELETE /api/posts/:id: a missing post is a 404 before the owner-or-admin
     * check; then the post's comments are deleted, then the post.
     */
    method DeletePost(who: Claims, id: ObjectIdParam) returns (r: Result<(), ApiError>)
      requires Valid()
      modifies this
      ensures Valid()
      ensures PostDeleted(who, id, r)
    {
      match id
      case Malformed => return Err(InvalidId);
      case Missing => return Err(NotFound(PostResource));
      case Given(n) =>
        var found := FindPost(posts, n);
        if found.None? {
          return Err(NotFound(PostResource));
        }
        if !CanMutate(posts[found.value].author, who) {
          return Err(Forbidden(DeletingPost));
        }
        DeletePostKeepsConsistent(isEmail, users, posts, comments, clock, n);
        comments := CommentsNotOn(comments, n);
        posts := PostsWithout(posts, n);
        r := Ok(());
    }

    // ----- Comment routes -----

    /**
     * GET /api/comments/:postId: the post's comments, oldest first. Without a
     * post id the query has no filter and lists every comment.
     */
    function ListComments(postId: ObjectIdParam): (r: Result<seq<Comment>, ApiError>)
      reads this
      requires Valid()
      ensures postId.Malformed? <==> r.Err?
      ensures r.Err? ==> r.error == InvalidId
      ensures postId.Missing? ==> r == Ok(comments)
      ensures postId.Given? ==> r.Ok? && Ascending(r.value, CommentId)
      ensures postId.Given? ==> forall c :: c in r.value <==> c in comments && c.post == postId.id
    {
      match postId
      case Malformed => Err(InvalidId)
      case Missing => Ok(comments)  // `Comment.find({ post: undefined })` drops the filter
      case Given(n) =>
        FilterAscending(comments, (c: Comment) => c.post == n, CommentId);
        Ok(CommentsOn(comments, n))
    }

    /**
     * What POST /api/comments answers and does: 400 for a malformed post id and
     * 404 for a missing post, with the store unchanged; otherwise the comment by
     * the requester is appended with the next id when valid, and its validation
     * message comes back, with nothing changed, when not.
     */
    twostate predicate CommentCreated(who: Claims, content: string, postId: ObjectIdParam, new r: Result<Comment, ApiError>)
      reads this
    {
      && (postId.Malformed? ==> r == Err(InvalidId) && unchanged(this))
      && (postId.Missing? || (postId.Given? && !HasPost(old(posts), postId.id)) ==>
            r == Err(NotFound(PostResource)) && unchanged(this))
      && (postId.Given? && HasPost(old(posts), postId.id) ==>
            var c := Comment(old(clock), content, postId.id, who.id);
            if CommentErrors(c) != [] then r == Err(ValidationFailed(CommentErrors(c))) && unchanged(this)
            else && r == Ok(c)
                 && comments == old(comments) + [c] && users == old(users) && posts == old(posts)
                 && clock == old(clock) + 1)
    }

    /** POST /api/comments: the parent post must exist; the requester becomes the author. */
    method CreateComment(who: Claims, content: string, postId: ObjectIdParam) returns (r: Result<Comment, ApiError>)
      requires Valid()
      modifies this
      ensures Valid()
      ensures CommentCreated(who, content, postId, r)
    {
      match postId
      case Malformed => return Err(InvalidId);
      case Missing => return Err(NotFound(PostResource));
      case Given(n) =>
        if FindPost(posts, n).None? {
          return Err(NotFound(PostResource));
        }
        var c := Comment(clock, content, n, who.id);
        var errors := CommentErrors(c);
        if errors != [] {
          return Err(ValidationFailed(errors));
        }
        AddComment(c);
        r := Ok(c);
    }

    /** Stores a valid comment on an existing post with the next identifier. */
    method AddComment(c: Comment)
      requires Valid() && c.id == clock && ValidComment(c) && HasPost(posts, c.post)
      modifies this
      ensures Valid()
      ensures comments == old(comments) + [c] && users == old(users) && posts == old(posts) && clock == old(clock) + 1
    {
      CreateCommentKeepsConsistent(isEmail, users, posts, comments, clock, c);
      comments := comments + [c];
      clock := clock + 1;
    }

    /**
     * What DELETE /api/comments/:id answers and does: 400, 404 and 403 with the
     * store unchanged; otherwise exactly that comment is removed.
     */
    twostate predicate CommentDeleted(who: Claims, id: ObjectIdParam, new r: Result<(), ApiError>)
      reads this
    {
      && (id.Malformed? ==> r == Err(InvalidId) && unchanged(this))
      && (id.Missing? || (id.Given? && !HasComment(old(comments), id.id)) ==>
            r == Err(NotFound(CommentResource)) && unchanged(this))
      && (id.Given? && HasComment(old(comments), id.id) ==>
            var c := old(comments)[FindComment(old(comments), id.id).value];
            if !CanMutate(c.author, who) then r == Err(Forbidden(DeletingComment)) && unchanged(this)
            else && r == Ok(())
                 && comments == CommentsWithout(old(comments), id.id)
                 && users == old(users) && posts == old(posts) && clock == old(clock))
    }

    /** DELETE /api/comments/:id: a missing comment is a 404 before the owner-or-admin check. */
    method DeleteComment(who: Claims, id: ObjectIdParam) returns (r: Result<(), ApiError>)
      requires Valid()
      modifies this
      ensures Valid()
      ensures CommentDeleted(who, id, r)
    {
      match id
      case Malformed => return Err(InvalidId);
      case Missing => return Err(NotFound(CommentResource));
      case Given(n) =>
        var found := FindComment(comments, n);
        if found.None? {
          return Err(NotFound(CommentResource));
        }
        if !CanMutate(comments[found.value].author, who) {
          return Err(Forbidden(DeletingComment));
        }
        DeleteCommentKeepsConsistent(isEmail, users, posts, comments, clock, n);
        comments := CommentsWithout(comments, n);
        r := Ok(());
    }

    // ----- User routes -----

    /** GET /api/user/profile: the requester's record without password, and how many posts they wrote. */
    function ProfileOf(who: Claims): (r: Result<Profile, ApiError>)
      reads this
      ensures r.Err? <==> forall u :: u in users ==> u.id != who.id
      ensures r.Err? ==> r.error == NotFound(UserResource)
      ensures r.Ok? ==> exists u :: u in users && u.id == who.id && r.value.user == ViewOf(u)
      ensures r.Ok? ==> r.value.postCount == Count(posts, (p: Post) => p.author == who.id)
    {
      match FindUser(users, who.id)
      case None => Err(NotFound(UserResource))
      case Some(i) => Ok(Profile(ViewOf(users[i]), Count(posts, (p: Post) => p.author == who.id)))
    }

    /** GET /api/user/posts?page&limit: the same window over every post of the requester. */
    function ListOwn(who: Claims, page: Option<nat>, limit: Option<nat>): (r: OwnListing)
      reads this
      ensures var pg := OrDefault(page, DefaultPage);
        var lim := OrDefault(limit, DefaultLimit);
        var mine := WrittenBy(posts, who.id);
        var skip := Skip(pg, lim);
        && r.pagination == Envelope(pg, lim, |mine|)
        && |r.posts| == (if skip >= |mine| then 0 else Min(lim, |mine| - skip))
        && forall i :: 0 <= i < |r.posts| ==> r.posts[i] == mine[skip + i]
    {
      var listed := Paginate(WrittenBy(posts, who.id), page, limit);
      OwnListing(listed.0, listed.1)
    }

    // ----- Authenticated routes -----

    /**
     * A request to a protected route: `authenticateToken` runs first, so a
     * missing token (401) or a token that does not verify (403) is answered
     * before the store is looked at, and leaves it unchanged.
     */
    method Handle(header: Option<string>, verify: string -> Option<Claims>, req: ProtectedRequest)
      returns (r: Result<Reply, ApiError>)
      requires Valid()
      modifies this
      ensures Valid()
      ensures Authenticate(header, verify).Err? ==> r == Err(Authenticate(header, verify).error) && unchanged(this)
      ensures req.ProfileRequest? || req.OwnPostsRequest? ==> unchanged(this)
      ensures Authenticate(header, verify).Ok? && req.ProfileRequest? ==>
                var p := ProfileOf(Authenticate(header, verify).value);
                r == if p.Ok? then Ok(ProfileReply(p.value)) else Err(p.error)
      ensures Authenticate(header, verify).Ok? && req.OwnPostsRequest? ==>
                r == Ok(OwnPostsReply(ListOwn(Authenticate(header, verify).value, req.page, req.limit)))
      ensures Authenticate(header, verify).Ok? && req.CreatePostRequest? ==>
                PostCreated(Authenticate(header, verify).value, req.title, req.content, req.tags, PostOf(r))
      ensures Authenticate(header, verify).Ok? && req.UpdatePostRequest? ==>
                PostUpdated(Authenticate(header, verify).value, req.postId, req.title, req.content, req.tags, PostOf(r))
      ensures Authenticate(header, verify).Ok? && req.DeletePostRequest? ==>
                PostDeleted(Authenticate(header, verify).value, req.postId, DoneOf(r))
      ensures Authenticate(header, verify).Ok? && req.CreateCommentRequest? ==>
                CommentCreated(Authenticate(header, verify).value, req.content, req.postId, CommentOf(r))
      ensures Authenticate(header, verify).Ok? && req.DeleteCommentRequest? ==>
                CommentDeleted(Authenticate(header, verify).value, req.commentId, DoneOf(r))
    {
      var auth := Authenticate(header, verify);
      if auth.Err? {
        return Err(auth.error);
      }
      r := Serve(auth.value, req);
    }

    /** The protected route `req` names, for the authenticated requester `who`. */
    method Serve(who: Claims, req: ProtectedRequest) returns (r: Result<Reply, ApiError>)
      requires Valid()
      modifies this
      ensures Valid()
      ensures req.ProfileRequest? ==>
                unchanged(this) && r == if ProfileOf(who).Ok? then Ok(ProfileReply(ProfileOf(who).value)) else Err(ProfileOf(who).error)
      ensures req.OwnPostsRequest? ==> unchanged(this) && r == Ok(OwnPostsReply(ListOwn(who, req.page, req.limit)))
      ensures req.CreatePostRequest? ==> PostCreated(who, req.title, req.content, req.tags, PostOf(r))
      ensures req.UpdatePostRequest? ==> PostUpdated(who, req.postId, req.title, req.content, req.tags, PostOf(r))
      ensures req.DeletePostRequest? ==> PostDeleted(who, req.postId, DoneOf(r))
      ensures req.CreateCommentRequest? ==> CommentCreated(who, req.content, req.postId, CommentOf(r))
      ensures req.DeleteCommentRequest? ==> CommentDeleted(who, req.commentId, DoneOf(r))
    {
      match req {
        case CreatePostRequest(title, content, tags) =>
          var res := CreatePost(who, title, content, tags);
          r := PostReplyOf(res);
        case UpdatePostRequest(postId, title, content, tags) =>
          var res := UpdatePost(who, postId, title, content, tags);
          r := PostReplyOf(res);
        case DeletePostRequest(postId) =>
          var res := DeletePost(who, postId);
          r := DoneReplyOf(res);
        case CreateCommentRequest(content, postId) =>
          var res := CreateComment(who, content, postId);
          r := CommentReplyOf(res);
        case DeleteCommentRequest(commentId) =>
          var res := DeleteComment(who, commentId);
          r := DoneReplyOf(res);
        case ProfileRequest =>
          var p := ProfileOf(who);
          r := if p.Ok? then Ok(ProfileReply(p.value)) else Err(p.error);
        case OwnPostsRequest(page, limit) =>
          r := Ok(OwnPostsReply(ListOwn(who, page, limit)));
      }
    }
  }

  // ----- Login without a field, as written -----

  /**
   * A login body without a password tells a registered e-mail from an unknown
   * one: the first gets a 500, the second the usual 401.
   */
  lemma LoginWithoutPasswordRevealsAccount(s: BlogStore, known: string, unknown: string)
    requires s.Valid()
    requires EmailRegistered(s.users, Lower(known)) && !EmailRegistered(s.users, Lower(unknown))
    ensures s.Login(Some(known), None) == Err(Internal) && Status(Internal) == 500
    ensures s.Login(Some(unknown), None) == Err(InvalidCredentials) && Status(InvalidCredentials) == 401
  {
  }

  /** A login body without an e-mail but with the first user's password logs in as that user. */
  lemma LoginWithoutEmailPicksFirstUser(s: BlogStore, password: string)
    requires s.Valid() && s.users != [] && Matches(s.users[0].password, password)
    ensures s.Login(None, Some(password)) == Ok(Session(ClaimsOf(s.users[0]), ViewOf(s.users[0])))
  {
  }
}
