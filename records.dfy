/**
 * The three stored record kinds (users, posts, comments), the field limits
 * their schemas impose, the messages a failed validation reports, and the way
 * the post-update handler merges a request body into a stored post.
 *
 * Identifiers are drawn from one creation counter, so a record's `id` also
 * orders records by creation time (it stands in for `createdAt`).
 */
module Records {
  import opened Wrappers
  import opened Seqs
  import opened Strings

  const NameMaxLength: nat := 50
  const PasswordMinLength: nat := 6
  const TitleMaxLength: nat := 100
  const PostContentMaxLength: nat := 5000
  const CommentMaxLength: nat := 500

  /** The `role` enumeration: 'user' (the default) or 'admin'. */
  datatype Role = UserRole | AdminRole

  /** A stored password: the salted one-way hash is modelled by the password it was made from. */
  datatype PasswordHash = Hashed(plain: string)

  /** `comparePassword`: does the candidate match the stored hash? */
  predicate Matches(h: PasswordHash, candidate: string) {
    h.plain == candidate
  }

  datatype User = User(id: nat, name: string, email: string, password: PasswordHash, role: Role)
  datatype Post = Post(id: nat, title: string, content: string, author: nat, tags: seq<string>, isPublished: bool)
  datatype Comment = Comment(id: nat, content: string, post: nat, author: nat)

  /** The identity claims a bearer token carries: `{ id, email, role }`. */
  datatype Claims = Claims(id: nat, email: string, role: Role)

  /** A user as the API returns it: every field but the password. */
  datatype UserView = UserView(id: nat, name: string, email: string, role: Role)

  function UserId(u: User): nat { u.id }
  function PostId(p: Post): nat { p.id }
  function CommentId(c: Comment): nat { c.id }

  function ViewOf(u: User): (v: UserView)
    ensures v.id == u.id && v.name == u.name && v.email == u.email && v.role == u.role
  {
    UserView(u.id, u.name, u.email, u.role)
  }

  /** The claims signed into the token issued at registration and login. */
  function ClaimsOf(u: User): (c: Claims)
    ensures c.id == u.id && c.email == u.email && c.role == u.role
  {
    Claims(u.id, u.email, u.role)
  }

  // ----- User schema -----

  /** The record `new User({ name, email, password })` builds: setters trim the name and lower-case the e-mail. */
  function NewUser(id: nat, name: string, email: string, password: string): (u: User)
    ensures u.id == id && u.name == Trim(name) && u.email == Lower(email)
    ensures Matches(u.password, password) && u.role == UserRole
  {
    User(id, Trim(name), Lower(email), Hashed(password), UserRole)
  }

  /** The schema's constraints on a stored user; `isEmail` is the e-mail pattern. */
  ghost predicate ValidUser(u: User, isEmail: string -> bool) {
    && u.name != [] && Trimmed(u.name) && |u.name| <= NameMaxLength
    && u.email != [] && isEmail(u.email)
    && |u.password.plain| >= PasswordMinLength
  }

  // The validators' messages, as the schemas declare them.
  const NameRequired := "Name is required"
  const NameTooLong := "Name cannot exceed 50 characters"
  const EmailRequired := "Email is required"
  const EmailInvalid := "Please enter a valid email"
  const PasswordRequired := "Password is required"
  const PasswordTooShort := "Password must be at least 6 characters long"

  /** The name's messages: `required` for an empty (trimmed) name, else `maxLength`. */
  function NameErrors(n: string): (r: seq<string>)
    ensures |r| <= 1 && (r == [] <==> n != [] && |n| <= NameMaxLength)
    ensures NameRequired in r <==> n == []
    ensures NameTooLong in r <==> |n| > NameMaxLength
  {
    if n == [] then [NameRequired]
    else if |n| > NameMaxLength then [NameTooLong]
    else []
  }

  /** The e-mail's messages: `required` for an empty e-mail, else the `match` pattern. */
  function EmailErrors(e: string, isEmail: string -> bool): (r: seq<string>)
    ensures |r| <= 1 && (r == [] <==> e != [] && isEmail(e))
    ensures EmailRequired in r <==> e == []
    ensures EmailInvalid in r <==> e != [] && !isEmail(e)
  {
    if e == [] then [EmailRequired]
    else if !isEmail(e) then [EmailInvalid]
    else []
  }

  /** The password's messages: `required` for an empty password, else `minLength`. */
  function PasswordErrors(password: string): (r: seq<string>)
    ensures |r| <= 1 && (r == [] <==> |password| >= PasswordMinLength)
    ensures PasswordRequired in r <==> password == []
    ensures PasswordTooShort in r <==> 0 < |password| < PasswordMinLength
  {
    if password == [] then [PasswordRequired]
    else if |password| < PasswordMinLength then [PasswordTooShort]
    else []
  }

  /**
   * The messages of the validation error `user.save()` raises: at most one per
   * field (the first failing validator of each), in schema order, so a name
   * message comes first and a password message last.
   */
  function UserErrors(name: string, email: string, password: string, isEmail: string -> bool): (errors: seq<string>)
    ensures errors == NameErrors(Trim(name)) + EmailErrors(Lower(email), isEmail) + PasswordErrors(password)
    ensures |errors| <= 3
    ensures errors == [] <==> ValidUser(NewUser(0, name, email, password), isEmail)
    ensures Trim(name) == [] ==> errors[0] == NameRequired
    ensures |Trim(name)| > NameMaxLength ==> errors[0] == NameTooLong
    ensures password == [] ==> errors[|errors| - 1] == PasswordRequired
    ensures 0 < |password| < PasswordMinLength ==> errors[|errors| - 1] == PasswordTooShort
  {
    NameErrors(Trim(name)) + EmailErrors(Lower(email), isEmail) + PasswordErrors(password)
  }

  // ----- Post schema -----

  /** The record `new Post({ title, content, author, tags: tags || [] })` builds. */
  function NewPost(id: nat, title: string, content: string, author: nat, tags: Option<seq<string>>): (p: Post)
    ensures p.id == id && p.author == author && p.isPublished
    ensures p.title == Trim(title) && p.content == content
    ensures tags.None? ==> p.tags == []
    ensures tags.Some? ==> |p.tags| == |tags.value|
    ensures forall i :: 0 <= i < |p.tags| ==> p.tags[i] == Trim(tags.value[i])
  {
    Post(id, Trim(title), content, author, Map(tags.GetOr([]), Trim), true)
  }

  /** The schema's constraints on a stored post. */
  ghost predicate ValidPost(p: Post) {
    && p.title != [] && Trimmed(p.title) && |p.title| <= TitleMaxLength
    && p.content != [] && |p.content| <= PostContentMaxLength
    && forall i :: 0 <= i < |p.tags| ==> Trimmed(p.tags[i])
  }

  const TitleRequired := "Title is required"
  const TitleTooLong := "Title cannot exceed 100 characters"
  const ContentRequired := "Content is required"
  const ContentTooLong := "Content cannot exceed 5000 characters"

  /** The messages of the validation error `post.save()` raises for a post record: a title message first. */
  function PostErrors(p: Post): (errors: seq<string>)
    requires Trimmed(p.title) && forall i :: 0 <= i < |p.tags| ==> Trimmed(p.tags[i])
    ensures |errors| <= 2
    ensures errors == [] <==> ValidPost(p)
    ensures TitleRequired in errors <==> p.title == []
    ensures TitleTooLong in errors <==> |p.title| > TitleMaxLength
    ensures ContentRequired in errors <==> p.content == []
    ensures ContentTooLong in errors <==> |p.content| > PostContentMaxLength
    ensures p.title == [] ==> errors[0] == TitleRequired
    ensures |p.title| > TitleMaxLength ==> errors[0] == TitleTooLong
  {
    var titleErrors: seq<string> :=
      if p.title == [] then [TitleRequired]
      else if |p.title| > TitleMaxLength then [TitleTooLong]
      else [];
    var contentErrors: seq<string> :=
      if p.content == [] then [ContentRequired]
      else if |p.content| > PostContentMaxLength then [ContentTooLong]
      else [];
    titleErrors + contentErrors
  }

  /** A newly built post always has trimmed title and tags, so `PostErrors` applies to it. */
  lemma NewPostTrimmed(id: nat, title: string, content: string, author: nat, tags: Option<seq<string>>)
    ensures var p := NewPost(id, title, content, author, tags);
      Trimmed(p.title) && forall i :: 0 <= i < |p.tags| ==> Trimmed(p.tags[i])
  {
  }

  /**
   * The update handler's merge: `post.title = title || post.title`, the same for
   * content, and `post.tags = tags || post.tags`; the title and tag setters trim.
   */
  function Merge(p: Post, title: string, content: string, tags: Option<seq<string>>): (q: Post)
    requires Trimmed(p.title) && forall i :: 0 <= i < |p.tags| ==> Trimmed(p.tags[i])
    ensures q.id == p.id && q.author == p.author && q.isPublished == p.isPublished
    ensures q.title == if title == [] then p.title else Trim(title)
    ensures q.content == if content == [] then p.content else content
    ensures tags.None? ==> q.tags == p.tags
    ensures tags.Some? ==> |q.tags| == |tags.value| && forall i :: 0 <= i < |q.tags| ==> q.tags[i] == Trim(tags.value[i])
    ensures Trimmed(q.title) && forall i :: 0 <= i < |q.tags| ==> Trimmed(q.tags[i])
  {
    // Assigning the old title or tags back runs the trim setters again, which leaves them as they were.
    var newTitle := if title != [] then Trim(title) else Trim(p.title);
    assert title == [] ==> newTitle == p.title by {
      TrimTrimmed(p.title);
    }
    var newContent := if content != [] then content else p.content;
    var newTags := if tags.Some? then Map(tags.value, Trim) else Map(p.tags, Trim);
    assert tags.None? ==> newTags == p.tags by {
      if tags.None? {
        TrimAllTrimmed(p.tags);
      }
    }
    p.(title := newTitle, content := newContent, tags := newTags)
  }

  /** Trimming every tag of an already trimmed list changes nothing. */
  lemma TrimAllTrimmed(tags: seq<string>)
    requires forall i :: 0 <= i < |tags| ==> Trimmed(tags[i])
    ensures Map(tags, Trim) == tags
  {
    forall i | 0 <= i < |tags| ensures Trim(tags[i]) == tags[i] {
      TrimTrimmed(tags[i]);
    }
  }

  // ----- Comment schema -----

  /** The schema's constraints on a stored comment. */
  ghost predicate ValidComment(c: Comment) {
    c.content != [] && |c.content| <= CommentMaxLength
  }

  const CommentRequired := "Comment content is required"
  const CommentTooLong := "Comment cannot exceed 500 characters"

  /** The messages of the validation error `comment.save()` raises. */
  function CommentErrors(c: Comment): (errors: seq<string>)
    ensures |errors| <= 1
    ensures errors == [] <==> ValidComment(c)
    ensures CommentRequired in errors <==> c.content == []
    ensures CommentTooLong in errors <==> |c.content| > CommentMaxLength
  {
    if c.content == [] then [CommentRequired]
    else if |c.content| > CommentMaxLength then [CommentTooLong]
    else []
  }
}
