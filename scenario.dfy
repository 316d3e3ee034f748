/**
 * A walk through the API on a fresh store: two users register, the first
 * writes a post, the second may neither edit nor delete it but may comment on
 * it, the author edits it, and when the author deletes the post its comments
 * go with it. Each phase is a method with its own contract.
 */
module Scenario {
  import opened Wrappers
  import opened Strings
  import opened Records
  import opened Policy
  import opened Store

  /** A valid sign-up under an unused e-mail succeeds, as an ordinary user with the next identifier. */
  method SignUp(store: BlogStore, name: string, email: string, password: string) returns (who: Claims)
    requires store.Valid()
    requires ValidUser(NewUser(0, name, email, password), store.isEmail) && !EmailRegistered(store.users, Lower(email))
    modifies store
    ensures store.Valid()
    ensures who.id == old(store.clock) && who.role == UserRole
    ensures store.users == old(store.users) + [NewUser(old(store.clock), name, email, password)]
    ensures store.posts == old(store.posts) && store.comments == old(store.comments) && store.clock == old(store.clock) + 1
  {
    var r := store.Register(Some(name), Some(email), Some(password));
    who := r.value.claims;
  }

  /** A store whose only user has another e-mail does not know `email`. */
  lemma OnlyUserEmail(users: seq<User>, email: string)
    requires |users| == 1 && users[0].email != email
    ensures !EmailRegistered(users, email)
  {
  }

  /** A second user whose e-mail differs from the first one's registers too. */
  method SignUpSecond(store: BlogStore, name: string, email: string, password: string) returns (who: Claims)
    requires store.Valid() && |store.users| == 1 && store.users[0].email != Lower(email)
    requires ValidUser(NewUser(0, name, email, password), store.isEmail)
    modifies store
    ensures store.Valid()
    ensures who.id == old(store.clock) && who.role == UserRole
    ensures store.posts == old(store.posts) && store.comments == old(store.comments) && store.clock == old(store.clock) + 1
  {
    OnlyUserEmail(store.users, Lower(email));
    who := SignUp(store, name, email, password);
  }

  /** The first user registers on an empty store. */
  method SignUpFirst(isEmail: string -> bool, name: string, email: string, password: string) returns (store: BlogStore, who: Claims)
    requires ValidUser(NewUser(0, name, email, password), isEmail)
    ensures fresh(store) && store.Valid() && store.isEmail == isEmail
    ensures |store.users| == 1 && store.users[0].email == Lower(email)
    ensures store.posts == [] && store.comments == [] && store.clock == 1 && who.id == 0 && who.role == UserRole
  {
    store := new BlogStore(isEmail);
    who := SignUp(store, name, email, password);
  }

  /** Two users with different e-mails register on an empty store. */
  method SignUpTwo(isEmail: string -> bool, name1: string, email1: string, pw1: string, name2: string, email2: string, pw2: string)
    returns (store: BlogStore, a: Claims, b: Claims)
    requires ValidUser(NewUser(0, name1, email1, pw1), isEmail) && ValidUser(NewUser(0, name2, email2, pw2), isEmail)
    requires Lower(email1) != Lower(email2)
    ensures fresh(store) && store.Valid()
    ensures store.posts == [] && store.comments == [] && store.clock == 2
    ensures a.id == 0 && b.id == 1 && a.role == UserRole && b.role == UserRole
  {
    store, a := SignUpFirst(isEmail, name1, email1, pw1);
    b := SignUpSecond(store, name2, email2, pw2);
  }

  /** A post with a non-blank title and content within the limits is stored as the only post. */
  method Publish(store: BlogStore, a: Claims, title: string, content: string) returns (p: Post)
    requires store.Valid() && store.posts == [] && store.comments == []
    requires !Blank(title) && |Trim(title)| <= TitleMaxLength && content != [] && |content| <= PostContentMaxLength
    modifies store
    ensures store.Valid() && store.posts == [p] && store.comments == []
    ensures p.author == a.id && p.content == content
  {
    AcceptedPost(store.clock, title, content, a.id);
    var created := store.CreatePost(a, title, content, None);
    p := created.value;
  }

  /** A post with a non-blank title and content within the limits passes validation. */
  lemma AcceptedPost(id: nat, title: string, content: string, author: nat)
    requires !Blank(title) && |Trim(title)| <= TitleMaxLength && content != [] && |content| <= PostContentMaxLength
    ensures ValidPost(NewPost(id, title, content, author, None))
  {
  }

  /** Replacing a valid post's title by a non-blank one within the limit keeps it valid. */
  lemma AcceptedEdit(p: Post, newTitle: string)
    requires ValidPost(p) && !Blank(newTitle) && |Trim(newTitle)| <= TitleMaxLength
    ensures ValidPost(Merge(p, newTitle, "", None))
  {
  }

  /** Someone who neither wrote the post nor is an administrator can neither edit nor delete it. */
  method Stranger(store: BlogStore, b: Claims, p: Post, newTitle: string)
    returns (edit: Result<Post, ApiError>, delete: Result<(), ApiError>)
    requires store.Valid() && store.posts == [p] && p.author != b.id && b.role == UserRole
    modifies store
    ensures store.Valid() && unchanged(store)
    ensures edit == Err(Forbidden(EditingPost)) && delete == Err(Forbidden(DeletingPost))
  {
    assert FindPost(store.posts, p.id) == Some(0);
    edit := store.UpdatePost(b, Given(p.id), newTitle, "", None);
    delete := store.DeletePost(b, Given(p.id));
  }

  /** The author may edit: a new non-blank title replaces the old one and the empty content keeps the old content. */
  method OwnerEdits(store: BlogStore, a: Claims, p: Post, newTitle: string) returns (edit: Result<Post, ApiError>, q: Post)
    requires store.Valid() && store.posts == [p] && store.comments == [] && p.author == a.id
    requires !Blank(newTitle) && |Trim(newTitle)| <= TitleMaxLength
    modifies store
    ensures store.Valid() && store.posts == [q] && store.comments == []
    ensures edit == Ok(q) && q.id == p.id && q.author == p.author && q.title == Trim(newTitle) && q.content == p.content
  {
    assert FindPost(store.posts, p.id) == Some(0);
    assert p in store.posts;
    AcceptedEdit(p, newTitle);
    edit := store.UpdatePost(a, Given(p.id), newTitle, "", None);
    q := edit.value;
  }

  /** Someone else comments on the post; the author deletes it; its comments and the post are gone. */
  method CommentThenDelete(store: BlogStore, a: Claims, b: Claims, q: Post, text: string)
    returns (comment: Result<Comment, ApiError>, remaining: Result<seq<Comment>, ApiError>, lookup: Result<Post, ApiError>)
    requires store.Valid() && store.posts == [q] && store.comments == [] && q.author == a.id
    requires text != [] && |text| <= CommentMaxLength
    modifies store
    ensures comment.Ok? && comment.value.content == text && comment.value.post == q.id && comment.value.author == b.id
    ensures remaining == Ok([]) && lookup == Err(NotFound(PostResource))
  {
    assert FindPost(store.posts, q.id) == Some(0);
    comment := store.CreateComment(b, text, Given(q.id));
    assert FindPost(store.posts, q.id) == Some(0);
    var deleted := store.DeletePost(a, Given(q.id));
    remaining := store.ListComments(Given(q.id));
    lookup := store.GetPost(Given(q.id));
  }

  /**
   * The whole walk on a fresh store, for any two well-formed sign-ups with
   * different e-mails, any valid post and any valid comment.
   */
  method CascadeWalkthrough(isEmail: string -> bool, name1: string, email1: string, pw1: string,
                            name2: string, email2: string, pw2: string,
                            title: string, content: string, newTitle: string, text: string)
    returns (strangerEdit: Result<Post, ApiError>, strangerDelete: Result<(), ApiError>,
             ownerEdit: Result<Post, ApiError>, comment: Result<Comment, ApiError>,
             remaining: Result<seq<Comment>, ApiError>, lookup: Result<Post, ApiError>)
    requires ValidUser(NewUser(0, name1, email1, pw1), isEmail) && ValidUser(NewUser(0, name2, email2, pw2), isEmail)
    requires Lower(email1) != Lower(email2)
    requires !Blank(title) && |Trim(title)| <= TitleMaxLength && content != [] && |content| <= PostContentMaxLength
    requires !Blank(newTitle) && |Trim(newTitle)| <= TitleMaxLength
    requires text != [] && |text| <= CommentMaxLength
    ensures strangerEdit == Err(Forbidden(EditingPost)) && strangerDelete == Err(Forbidden(DeletingPost))
    ensures ownerEdit.Ok? && ownerEdit.value.title == Trim(newTitle) && ownerEdit.value.content == content
    ensures comment.Ok? && comment.value.content == text
    ensures remaining == Ok([]) && lookup == Err(NotFound(PostResource))
  {
    var store, a, b := SignUpTwo(isEmail, name1, email1, pw1, name2, email2, pw2);
    var p := Publish(store, a, title, content);
    strangerEdit, strangerDelete := Stranger(store, b, p, newTitle);
    var q;
    ownerEdit, q := OwnerEdits(store, a, p, newTitle);
    comment, remaining, lookup := CommentThenDelete(store, a, b, q, text);
  }
}
