/**
 * The pure helpers of the React client: tag parsing and the tag field's
 * initial text, the content preview, the submit gates of the forms, the
 * owner-button test, and the updates applied to the local post and comment
 * lists after the server accepted a change.
 */
module Client {
  import opened Wrappers
  import opened Seqs
  import opened Strings
  import opened Records
  import opened Policy

  const PreviewLength: nat := 200
  const Ellipsis: string := "..."

  // ----- Tags -----

  predicate NonEmpty(s: string) { s != [] }

  /** `tags.split(',').map(tag => tag.trim()).filter(tag => tag)` in `CreatePostForm.handleSubmit`. */
  function ParseTags(input: string): (tags: seq<string>)
    ensures forall i :: 0 <= i < |tags| ==> tags[i] != [] && Trimmed(tags[i]) && ',' !in tags[i]
  {
    var pieces := Split(input, ',');
    var trimmed := Map(pieces, Trim);
    assert forall i :: 0 <= i < |trimmed| ==> ',' !in trimmed[i] by {
      forall i | 0 <= i < |trimmed| ensures ',' !in trimmed[i] {
        TrimKeepsOut(pieces[i], ',');
      }
    }
    Filter(trimmed, NonEmpty)
  }

  /** `tags.join(', ')`: the tag field's text when a post is opened for editing. */
  function TagsText(tags: seq<string>): string {
    Join(tags, ", ")
  }

  /** A comma-free piece yields its trimmed text as one tag, or nothing when it is blank. */
  lemma {:induction false} ParseTagsPiece(a: string)
    requires ',' !in a
    ensures ParseTags(a) == if Trim(a) == [] then [] else [Trim(a)]
  {
    SplitWithoutSeparator(a, ',');
    assert Map([a], Trim) == [Trim(a)];
  }

  /** The tags before the first comma come first, then the tags after it. */
  lemma {:induction false} ParseTagsAtComma(a: string, b: string)
    requires ',' !in a
    ensures ParseTags(a + [','] + b) == ParseTags(a) + ParseTags(b)
  {
    var rest := Split(b, ',');
    SplitAtSeparator(a, ',', b);
    SplitWithoutSeparator(a, ',');
    MapAppend([a], rest, Trim);
    FilterAppend(Map([a], Trim), Map(rest, Trim), NonEmpty);
  }

  /** Tags that are non-empty, trimmed and comma-free. */
  predicate WellFormedTags(tags: seq<string>) {
    forall i :: 0 <= i < |tags| ==> tags[i] != [] && Trimmed(tags[i]) && ',' !in tags[i]
  }

  /** A well-formed tag after an optional single space parses back to itself. */
  lemma ParsePaddedTag(pre: string, t: string)
    requires pre == [] || pre == [' ']
    requires t != [] && Trimmed(t) && ',' !in t
    ensures ParseTags(pre + t) == [t]
  {
    if pre == [] {
      assert pre + t == t;
      TrimTrimmed(t);
    } else {
      TrimAfterSpace(t);
    }
    ParseTagsPiece(pre + t);
  }

  /** Parsing the joined text after an optional single space gives the tags back. */
  lemma {:induction false} ParseJoinedTags(pre: string, tags: seq<string>)
    requires pre == [] || pre == [' ']
    requires WellFormedTags(tags)
    ensures ParseTags(pre + TagsText(tags)) == tags
    decreases |tags|
  {
    if tags == [] {
      assert pre + TagsText(tags) == pre;
      ParseTagsPiece(pre);
    } else if |tags| == 1 {
      ParsePaddedTag(pre, tags[0]);
    } else {
      var t, rest := tags[0], tags[1..];
      var text := [' '] + TagsText(rest);
      assert TagsText(tags) == t + ", " + TagsText(rest);
      assert pre + TagsText(tags) == (pre + t) + [','] + text;
      ParseTagsAtComma(pre + t, text);
      ParsePaddedTag(pre, t);
      WellFormedTail(tags);
      ParseJoinedTags([' '], rest);
    }
  }

  /** The tags after the first of a well-formed list are well formed too. */
  lemma WellFormedTail(tags: seq<string>)
    requires WellFormedTags(tags) && tags != []
    ensures WellFormedTags(tags[1..]) && tags == [tags[0]] + tags[1..]
  {
    forall i | 0 <= i < |tags| - 1 ensures tags[1..][i] == tags[i + 1] {
    }
  }

  /** Editing a post shows its tags joined by ", "; submitting that text unchanged gives back the same tags. */
  lemma TagsRoundTrip(tags: seq<string>)
    requires WellFormedTags(tags)
    ensures ParseTags(TagsText(tags)) == tags
  {
    ParseJoinedTags([], tags);
    assert [] + TagsText(tags) == TagsText(tags);
  }

  // ----- Preview -----

  /** Whether `PostCard` shows the "Read More" button. */
  predicate ShowsReadMore(content: string) {
    |content| > PreviewLength
  }

  /** The content `PostCard` shows: the first 200 characters and "..." when longer, else all of it. */
  function Preview(content: string): (shown: string)
    ensures |shown| <= PreviewLength + |Ellipsis|
    ensures |shown| == PreviewLength + |Ellipsis| <==> ShowsReadMore(content)
    ensures ShowsReadMore(content) ==> shown[..PreviewLength] == content[..PreviewLength] && shown[PreviewLength..] == Ellipsis
    ensures !ShowsReadMore(content) ==> shown == content
  {
    if |content| > PreviewLength then content[..PreviewLength] + Ellipsis else content
  }

  // ----- Submit gates -----

  /** `s` holds a character other than white space. */
  predicate HasVisible(s: string) {
    exists i :: 0 <= i < |s| && !IsSpace(s[i])
  }

  /** `title.trim() && content.trim()`: the post form submits only then. */
  predicate CanSubmitPost(title: string, content: string) {
    Trim(title) != [] && Trim(content) != []
  }

  /** The post form submits exactly when title and content both hold a visible character. */
  lemma CanSubmitPostIffVisible(title: string, content: string)
    ensures CanSubmitPost(title, content) <==> HasVisible(title) && HasVisible(content)
  {
  }

  /** What the post form hands to `onSubmit`: the raw title and content and the parsed tags. */
  datatype PostForm = PostForm(title: string, content: string, tags: seq<string>)

  function SubmitPost(title: string, content: string, tagsText: string): (r: Option<PostForm>)
    ensures r.Some? <==> CanSubmitPost(title, content)
    ensures r.Some? ==> r.value.title == title && r.value.content == content
    ensures r.Some? ==> r.value.tags == ParseTags(tagsText) && WellFormedTags(r.value.tags)
  {
    if CanSubmitPost(title, content) then Some(PostForm(title, content, ParseTags(tagsText))) else None
  }

  /** A submitted post form never fails the server's "required" validators; only the length limits remain. */
  lemma {:induction false} SubmittedPostPassesRequired(id: nat, author: nat, title: string, content: string, tagsText: string)
    requires SubmitPost(title, content, tagsText).Some?
    requires |Trim(title)| <= TitleMaxLength && |content| <= PostContentMaxLength
    ensures var form := SubmitPost(title, content, tagsText).value;
      PostErrors(NewPost(id, form.title, form.content, author, Some(form.tags))) == []
  {
    var form := SubmitPost(title, content, tagsText).value;
    NewPostTrimmed(id, form.title, form.content, author, Some(form.tags));
    assert Trim(content) != [];
    assert content != [];
  }

  /** `LoginForm.handleSubmit`: name, e-mail and password when signing up; e-mail and password when logging in. */
  predicate CanSubmitLogin(isSignup: bool, name: string, email: string, password: string) {
    if isSignup then name != [] && email != [] && password != [] else email != [] && password != []
  }

  /** The sign-up gate is the login gate plus a non-empty name. */
  lemma SignupGate(name: string, email: string, password: string)
    ensures CanSubmitLogin(true, name, email, password) <==> name != [] && CanSubmitLogin(false, name, email, password)
  {
  }

  /**
   * The sign-up gate does not trim: every non-empty, all-white-space name is sent,
   * and the server's trimming validator answers with "Name is required" first.
   */
  lemma SignupGateAdmitsBlankName(name: string, email: string, password: string, isEmail: string -> bool)
    requires name != [] && Blank(name) && email != [] && password != []
    ensures CanSubmitLogin(true, name, email, password)
    ensures UserErrors(name, email, password, isEmail)[0] == NameRequired
  {
  }

  /** `CommentSection.handleSubmit` posts only a comment with visible text, from a logged-in user. */
  predicate CanSubmitComment(text: string, user: Option<UserView>) {
    Trim(text) != [] && user.Some?
  }

  /** A comment is sent exactly when its text holds a visible character and someone is logged in. */
  lemma CommentGate(text: string, user: Option<UserView>)
    ensures CanSubmitComment(text, user) <==> HasVisible(text) && user.Some?
  {
  }

  // ----- Owner controls -----

  /** `user && user.id === post.author._id`: whether `PostCard` shows the edit and delete buttons. */
  predicate IsOwner(user: Option<UserView>, post: Post) {
    user.Some? && user.value.id == post.author
  }

  /** The buttons appear only for a request the server's owner-or-admin rule will allow. */
  lemma OwnerControlsAllowed(user: Option<UserView>, post: Post)
    requires IsOwner(user, post)
    ensures CanMutate(post.author, Claims(user.value.id, user.value.email, user.value.role))
  {
  }

  /** Unlike the server, the client has no admin exception: an admin sees no buttons on others' posts. */
  lemma AdminSeesNoControls(admin: UserView, post: Post)
    requires admin.role == AdminRole && admin.id != post.author
    ensures !IsOwner(Some(admin), post)
    ensures CanMutate(post.author, Claims(admin.id, admin.email, admin.role))
  {
  }

  // ----- Local list updates -----

  /** `setPosts([result.post, ...posts])` after a create. */
  function AfterCreate(posts: seq<Post>, created: Post): (r: seq<Post>)
    ensures |r| == |posts| + 1 && r[0] == created && r[1..] == posts
  {
    [created] + posts
  }

  /** `posts.map(post => post._id === id ? updated : post)` after an update. */
  function AfterUpdate(posts: seq<Post>, id: nat, updated: Post): (r: seq<Post>)
    ensures |r| == |posts|
    ensures forall i :: 0 <= i < |posts| && posts[i].id == id ==> r[i] == updated
    ensures forall i :: 0 <= i < |posts| && posts[i].id != id ==> r[i] == posts[i]
  {
    Map(posts, (p: Post) => if p.id == id then updated else p)
  }

  /** `posts.filter(post => post._id !== postId)` after a delete. */
  function AfterDelete(posts: seq<Post>, id: nat): (r: seq<Post>)
    ensures forall i :: 0 <= i < |r| ==> r[i].id != id && r[i] in posts
    ensures forall i :: 0 <= i < |posts| && posts[i].id != id ==> posts[i] in r
  {
    Filter(posts, (p: Post) => p.id != id)
  }

  /** Deleting from a concatenation keeps the order: what is left of the front stays in front. */
  lemma AfterDeleteKeepsOrder(front: seq<Post>, back: seq<Post>, id: nat)
    ensures AfterDelete(front + back, id) == AfterDelete(front, id) + AfterDelete(back, id)
  {
    FilterAppend(front, back, (p: Post) => p.id != id);
  }

  /** `setComments([...comments, result.comment])` after a comment is added. */
  function AfterComment(comments: seq<Comment>, added: Comment): (r: seq<Comment>)
    ensures |r| == |comments| + 1 && r[|comments|] == added && r[..|comments|] == comments
  {
    comments + [added]
  }

  /** Deleting a just-created post (with a fresh id) restores the list. */
  lemma {:induction false} CreateThenDelete(posts: seq<Post>, created: Post)
    requires forall i :: 0 <= i < |posts| ==> posts[i].id != created.id
    ensures AfterDelete(AfterCreate(posts, created), created.id) == posts
  {
    var s := AfterCreate(posts, created);
    assert s[1..] == posts;
    FilterKeepsAll(posts, (p: Post) => p.id != created.id);
  }

  /** Deleting an updated post leaves the same list as deleting it unchanged. */
  lemma {:induction false} UpdateThenDelete(posts: seq<Post>, id: nat, updated: Post)
    requires updated.id == id
    ensures AfterDelete(AfterUpdate(posts, id, updated), id) == AfterDelete(posts, id)
  {
    if posts != [] {
      var u := AfterUpdate(posts, id, updated);
      UpdateThenDelete(posts[1..], id, updated);
      assert u[1..] == AfterUpdate(posts[1..], id, updated);
    }
  }
}
