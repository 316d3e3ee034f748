# Blog platform: a Dafny model of the API's store and the client helpers

This project models the domain logic of a small blog platform: an Express and
MongoDB back end with users, posts and comments, and a React client.

The back end (`backend/server.js`) is modelled as the class `Store.BlogStore`.
It holds the three collections as sequences, kept in creation order. A single
creation counter, `clock`, hands out every identifier, so a record's id also
stands in for its `createdAt` time, and "newest first" is the reverse of
creation order. Each route handler is one method or function of the class:

- register and login;
- the public post listing and a single post;
- create, update and delete of posts;
- listing, creating and deleting comments;
- the profile;
- the requester's own posts.

Each handler keeps the order of checks the code uses:

- a malformed id gives 400 (Mongoose's `CastError`);
- a missing record gives 404, before the owner-or-admin rule is consulted;
- the owner-or-admin rule gives 403;
- the schema validators give 400 with one message per failing field.

Every rejected request leaves the store unchanged. Every handler keeps the
store invariant `Store.Consistent`:

- records are in creation order, with ids below the counter;
- every record satisfies its schema;
- e-mails are unique;
- every comment belongs to an existing post.

The protected routes go through `Store.BlogStore.Handle`, which runs the
bearer-token check first.

Smaller modules carry the pieces the handlers share:

- `Records`: the schemas, their field limits, their error messages, and the update handler's merge rule.
- `Policy`: the owner-or-admin rule, bearer-token extraction, the error responses with their status codes and messages, and the `errorHandler` classification.
- `Pagination`: the page, limit, skip and envelope arithmetic.
- `Strings` and `Seqs`: the JavaScript `trim`, `split`, `join`, `filter` and `map` the code relies on.

The client (`frontend/src/App.js`) is modelled by the pure functions of
module `Client`:

- tag parsing, and the tag field's text when a post is opened for editing;
- the 200-character preview;
- the submit gates of the post, login and comment forms;
- the owner test that shows the edit and delete buttons;
- the updates the client applies to its local post and comment lists.

Module `Scenario` composes the handlers into one end-to-end walk. Two users
register. One writes a post, which the other may neither edit nor delete but
may comment on. The author edits the post and then deletes it, and its
comments go with it.

Some outside parts are abstracted:

- The e-mail pattern of the user schema is a parameter, `isEmail`, of the store.
- A password hash is modelled by the password it was made from, and `comparePassword` by equality.
- Token verification (signature and expiry) is a parameter, `verify`, that maps a token to its claims or to nothing.

Where the documented behaviour and the code differ, the model follows the code:

- The code never checks that the user named by a token still exists when it creates a post or a comment.
- The `isPublished` flag cannot be set through the API, so every post is published.
- Any word before the first space of the `Authorization` header is accepted as the scheme, not only `Bearer`.
- Registration always gives the role `user`. An administrator can only come from outside the API.

## Model

| member | source | states |
|---|---|---|
| Records.ViewOf | backend/server.js:202-207 | the user returned by the API carries id, name, e-mail and role, and no password |
| Records.ClaimsOf | backend/server.js:193-194 | the token's claims are the user's id, e-mail and role |
| Records.NewUser | backend/server.js:36-59 | a new user has the trimmed name and the lower-cased e-mail, a password that matches the one given, and the default role `user` |
| Records.NameErrors | backend/server.js:36-41 | at most one message; "Name is required" exactly for an empty (trimmed) name, "Name cannot exceed 50 characters" exactly for one over 50 characters, none otherwise |
| Records.EmailErrors | backend/server.js:42-48 | at most one message; "Email is required" exactly for an empty e-mail, "Please enter a valid email" exactly for a non-empty one that fails the pattern, none otherwise |
| Records.PasswordErrors | backend/server.js:49-53 | at most one message; "Password is required" exactly for an empty password, "Password must be at least 6 characters long" exactly for one of 1 to 5 characters, none otherwise |
| Records.UserErrors | backend/server.js:36-58 | the name, e-mail and password messages in that order, at most three; the list is empty exactly when the built user is valid; a blank or over-long name puts its message first, and a missing or short password puts its message last |
| Records.NewPost | backend/server.js:313-318 | a new post has the requester as author, the trimmed title, the content as given, each given tag trimmed (no tags gives the empty list), and is published |
| Records.PostErrors | backend/server.js:85-112 | at most one message each for title and content, title first; each of "Title is required", "Title cannot exceed 100 characters", "Content is required" and "Content cannot exceed 5000 characters" appears exactly when its field fails that check; empty exactly when the post is valid |
| Records.NewPostTrimmed | backend/server.js:86-105 | the title and tag setters leave a new post's title and tags trimmed |
| Records.Merge | backend/server.js:345-351 | a non-empty title replaces the old one (trimmed) and an empty or absent one keeps it; the same for content; supplied tags, even an empty list, replace the old ones (trimmed), and kept tags pass the trim setter unchanged; id, author and published flag never change |
| Records.TrimAllTrimmed | backend/server.js:102-105 | trimming every tag of an already trimmed list changes nothing |
| Records.CommentErrors | backend/server.js:117-122 | at most one message; "Comment content is required" exactly for empty content and "Comment cannot exceed 500 characters" exactly for content over 500 characters; empty exactly when the comment is valid |
| Policy.Status | backend/server.js:140-175 | 400 exactly for validation failures, duplicate e-mails and malformed ids; 401 exactly for bad credentials and a missing token; 403 exactly for a rejected token and a denied mutation; 404 exactly for not found; 500 exactly for anything else |
| Policy.MessagesDistinguishErrors | backend/server.js:140-175 | two errors with the same message are the same error, except that every validation failure reads "Validation Error" |
| Policy.AccountMessagesDistinct | backend/server.js:140-250 | the message of a validation, sign-up, id or token error determines the error (up to the validation messages) |
| Policy.ResourceMessagesDistinct | backend/server.js:158-470 | the message of an ownership, not-found or internal error determines the error |
| Policy.DenialRule | backend/server.js:341-343 | a mutation is denied exactly when the author is not the requester and the requester's role is not `admin` |
| Policy.BearerToken | backend/server.js:140-146 | no header gives no token; a token found is non-empty and holds no space |
| Policy.BearerTokenOfHeader | backend/server.js:141-142 | a header `<scheme> <token>`, optionally followed by a space and anything, yields exactly that token |
| Policy.BearerTokenPosition | backend/server.js:141-142 | a token found sits right after the header's first space and ends at the next space or at the end |
| Policy.Authenticate | backend/server.js:140-155 | 401 exactly when there is no token; 403 exactly when the token does not verify; otherwise the verified claims |
| Policy.Classify | backend/server.js:158-175 | a validation error is a 400 with the field messages; otherwise duplicate key 11000 is "Email already exists"; otherwise a cast error is "Invalid ID format"; anything else is a 500 |
| Pagination.OrDefault | backend/server.js:255-256 | the value is at least 1; a missing, non-numeric or zero parameter gives the default (1 for the page, 10 for the limit); any other value is kept |
| Pagination.CeilDiv | backend/server.js:277 | the page count is the least number of pages of `limit` items that hold all the items |
| Pagination.Window | backend/server.js:259-263 | the window holds the items from `skip` on, at most `limit` of them, in order; it is empty when `skip` is past the end |
| Pagination.NextPageIffItemsRemain | backend/server.js:285 | the page is before the last page exactly when items remain after it |
| Pagination.Envelope | backend/server.js:276-287 | the envelope echoes the page and total; `totalPages` is the ceiling of total over limit; `hasNext` holds exactly when items remain after this page; `hasPrev` holds exactly when pages come before it |
| Pagination.EveryItemOnOnePage | backend/server.js:257-263 | item k is at position k mod limit of page k/limit+1, that page is within `totalPages`, and no other page contains it |
| Pagination.WindowNonEmptyIffPageInRange | backend/server.js:257-277 | a page's window is non-empty exactly for pages 1 to `totalPages` |
| Pagination.Paginate | backend/server.js:255-263 | with the query defaults filled in, the page holds the items from `(page - 1) * limit` on, at most `limit` of them and none past the end, and the envelope is the one for the whole count |
| Store.FindUserByEmail | backend/server.js:183 | the index found holds the e-mail; nothing is found exactly when no user has it |
| Store.FindOneByEmail | backend/server.js:183 | with an e-mail, the index found holds its lower-cased form and nothing is found exactly when it is unregistered; without one, the query has no filter and finds the first user whenever there is one |
| Store.FindUser | backend/server.js:453 | the index found holds the id; nothing is found exactly when no user has it |
| Store.FindPost | backend/server.js:296 | the index found holds the id; nothing is found exactly when no post has it |
| Store.FindComment | backend/server.js:431 | the index found holds the id; nothing is found exactly when no comment has it |
| Store.FeedNewestFirst | backend/server.js:259-261 | the feed holds exactly the published posts, newest first |
| Store.OwnPostsNewestFirst | backend/server.js:479-481 | a user's listing holds exactly that user's posts, newest first |
| Store.CascadeDeletes | backend/server.js:377-380 | after a post's deletion, the posts kept are exactly those with other ids and the comments kept are exactly those on other posts; no comment on the deleted post remains |
| Store.RegisterKeepsConsistent | backend/server.js:183-190 | adding a valid user with an unused e-mail keeps the store invariant |
| Store.CreatePostKeepsConsistent | backend/server.js:313-320 | adding a valid post keeps the store invariant |
| Store.UpdatePostKeepsConsistent | backend/server.js:347-351 | replacing a post by a valid post with the same id keeps the store invariant |
| Store.DeletePostKeepsConsistent | backend/server.js:377-380 | deleting the post's comments and then the post keeps the store invariant: no comment is orphaned |
| Store.DeleteCommentKeepsConsistent | backend/server.js:442 | deleting a comment keeps the store invariant |
| Store.CreateCommentKeepsConsistent | backend/server.js:406-417 | adding a valid comment on an existing post keeps the store invariant |
| Store.BlogStore.Register | backend/server.js:178-212 | a registered e-mail gives 400, and so does a body without an e-mail once any user exists; otherwise an invalid user gives the validation messages (an absent field fails as required), both with the store unchanged; otherwise exactly the new user is appended and the session carries its claims and its password-free view |
| Store.BlogStore.Enrol | backend/server.js:188-211 | under an unused e-mail, an invalid user gives its validation messages with the store unchanged; a valid one is appended with the next id, and the session carries its claims and password-free view |
| Store.BlogStore.AddUser | backend/server.js:189-190 | saving a valid user with the next id under an unused e-mail appends exactly it, advances the counter and keeps the store invariant |
| Store.BlogStore.Login | backend/server.js:214-250 | with both fields: succeeds exactly when some user has the lower-cased e-mail and a matching password, returning that user's claims and view, and every failure is the same 401; without a password: 500 for a registered e-mail, 401 otherwise; without an e-mail: the password is checked against the first user |
| Store.BlogStore.CheckedLogin | backend/server.js:214-228 | every failure is the same 401; success exactly when both fields are present and some user has the lower-cased e-mail and a matching password; with both fields it agrees with the handler |
| Store.LoginWithoutPasswordRevealsAccount | backend/server.js:224-225 | a login without a password gets 500 for a registered e-mail and 401 for an unknown one |
| Store.LoginWithoutEmailPicksFirstUser | backend/server.js:219-225 | a login without an e-mail but with the first user's password logs in as the first user |
| Store.BlogStore.ListPublished | backend/server.js:253-292 | the page is the window at `(page-1)*limit` of the newest-first published posts; the envelope is computed over all published posts; each listed post carries the number of comments on it |
| Store.BlogStore.GetPost | backend/server.js:294-307 | a malformed id gives 400; a stored post with the id is returned, and 404 is returned exactly when none exists |
| Store.BlogStore.CreatePost | backend/server.js:309-330 | the post built from the request, authored by the requester, is appended when valid; otherwise the validation messages are returned and the store is unchanged |
| Store.BlogStore.AddPost | backend/server.js:313-320 | saving a valid post with the next id appends exactly it, advances the counter and keeps the store invariant |
| Store.BlogStore.UpdatePost | backend/server.js:332-361 | 400 for a malformed id, 404 for a missing post, 403 under the owner-or-admin rule, then the validation messages, each with the store unchanged, in that order; otherwise exactly that post is replaced by the merged post |
| Store.BlogStore.DeletePost | backend/server.js:363-386 | 400, 404 and 403 as for update, with the store unchanged; otherwise the post and every comment on it are removed and nothing else changes |
| Store.BlogStore.ListComments | backend/server.js:389-399 | a malformed id gives 400; a missing id drops the filter and lists every comment; otherwise exactly the comments on that post, oldest first |
| Store.BlogStore.CreateComment | backend/server.js:401-427 | 400 for a malformed post id and 404 for a missing post, with the store unchanged; otherwise a valid comment by the requester is appended, and an invalid one gives its validation message |
| Store.BlogStore.AddComment | backend/server.js:411-417 | saving a valid comment on an existing post with the next id appends exactly it, advances the counter and keeps the store invariant |
| Store.BlogStore.DeleteComment | backend/server.js:429-448 | 400 for a malformed id, 404 for a missing comment, 403 under the owner-or-admin rule, each with the store unchanged; otherwise exactly that comment is removed |
| Store.BlogStore.ProfileOf | backend/server.js:451-470 | 404 exactly when no user has the requester's id; otherwise that user's password-free view and the number of posts they wrote |
| Store.BlogStore.ListOwn | backend/server.js:473-501 | the same window and envelope as the public listing, over the requester's posts, newest first |
| Store.BlogStore.Handle | backend/server.js:140-155 | a missing token (401) or a rejected token (403) is answered before the store is looked at and leaves it unchanged; otherwise the reply and the new store are exactly those of the route's handler for the verified claims, and the read-only routes never change the store |
| Store.BlogStore.Serve | backend/server.js:309-501 | for an authenticated requester, each protected route's reply and new store are exactly what that route's handler promises; the profile and own-posts routes leave the store unchanged |
| Scenario.SignUp | backend/server.js:178-212 | a valid sign-up under an unused e-mail appends the new user as an ordinary user with the next id, and changes nothing else |
| Scenario.SignUpFirst | backend/server.js:178-212 | on an empty store, a valid sign-up leaves exactly one user, under the lower-cased e-mail, with id 0 and the role `user` |
| Scenario.OnlyUserEmail | backend/server.js:183-186 | a store whose only user has another e-mail does not hold the e-mail, so the duplicate check passes |
| Scenario.SignUpSecond | backend/server.js:178-212 | a second valid sign-up whose e-mail differs from the only user's succeeds with the next id |
| Scenario.SignUpTwo | backend/server.js:178-212 | two valid sign-ups with different e-mails on an empty store both succeed, as ordinary users with distinct ids |
| Scenario.AcceptedPost | backend/server.js:85-112 | a post whose title is non-blank within 100 characters after trimming and whose content is non-empty within 5000 characters passes the schema |
| Scenario.Publish | backend/server.js:309-330 | a post with a non-blank title and content within the limits becomes the store's only post |
| Scenario.AcceptedEdit | backend/server.js:345-351 | replacing a valid post's title by a non-blank one within the limit keeps the post valid |
| Scenario.Stranger | backend/server.js:332-374 | a user who is neither the author nor an administrator gets 403 on edit and on delete, and the store is unchanged |
| Scenario.OwnerEdits | backend/server.js:332-361 | the author's edit with a new title and empty content replaces the title and keeps the content |
| Scenario.CommentThenDelete | backend/server.js:363-427 | another user's comment on the post succeeds; after the author deletes the post, its comment list is empty and the post is not found |
| Scenario.CascadeWalkthrough | backend/server.js:178-427 | the whole walk, for any valid sign-ups, post and comment: the stranger is refused twice, the owner's edit and the comment succeed, and the deletion leaves no comments and no post |
| Client.ParseTags | frontend/src/App.js:318 | every tag parsed is non-empty, trimmed and comma-free |
| Client.ParseTagsPiece | frontend/src/App.js:318 | a comma-free input yields its trimmed text as the only tag, or no tag when it is blank |
| Client.ParseTagsAtComma | frontend/src/App.js:318 | the tags of the text before the first comma come first, followed by the tags of the rest |
| Client.TagsRoundTrip | frontend/src/App.js:306-318 | for non-empty, trimmed, comma-free tags, parsing their `join(', ')` gives back the same list |
| Client.Preview | frontend/src/App.js:282 | content over 200 characters shows its first 200 characters followed by "...", 203 characters in all; other content shows unchanged; the preview is 203 characters long exactly when "Read More" is shown |
| Client.CanSubmitPostIffVisible | frontend/src/App.js:317 | the post form submits exactly when title and content both hold a non-space character |
| Client.SubmitPost | frontend/src/App.js:316-320 | a submission happens exactly when the gate passes; it carries the raw title and content and the tags parsed from the tag field, which are well formed |
| Client.SubmittedPostPassesRequired | frontend/src/App.js:316-320 | a submitted post within the length limits passes every server validator |
| Client.SignupGate | frontend/src/App.js:389-398 | sign-up requires a non-empty name in addition to the login gate's non-empty e-mail and password |
| Client.SignupGateAdmitsBlankName | frontend/src/App.js:390-392 | every non-empty all-white-space name passes the sign-up gate, and the server's validation then puts "Name is required" first; the server answers with it only under an unregistered e-mail, since the duplicate check runs first |
| Client.CommentGate | frontend/src/App.js:483 | a comment is sent exactly when its text holds a non-space character and a user is logged in |
| Client.OwnerControlsAllowed | frontend/src/App.js:233 | the edit and delete buttons appear only when the server's owner-or-admin rule allows the request |
| Client.AdminSeesNoControls | frontend/src/App.js:233 | an administrator sees no buttons on another user's post, although the server would allow the request |
| Client.AfterCreate | frontend/src/App.js:643 | the new post heads the list and the old list follows unchanged |
| Client.AfterUpdate | frontend/src/App.js:661-665 | the length is kept; exactly the entries with the id become the updated post, and all others are unchanged |
| Client.AfterDelete | frontend/src/App.js:683 | no entry left has the id; every entry left was in the list; every entry with another id is kept |
| Client.AfterDeleteKeepsOrder | frontend/src/App.js:683 | deleting from a concatenation deletes from each part, in order |
| Client.AfterComment | frontend/src/App.js:492 | the new comment is appended at the end and the earlier comments are unchanged |
| Client.CreateThenDelete | frontend/src/App.js:643-683 | deleting a just-created post with a fresh id restores the list |
| Client.UpdateThenDelete | frontend/src/App.js:661-683 | deleting an updated post leaves the same list as deleting the original |

## Left out

- The HTTP layer is not modelled: Express middleware, route registration, the 404 fallback, the health route and the server start. Responses are modelled as results with error codes. The success status codes (200, 201) and response message strings are not modelled.
- The MongoDB connection, query building, `populate` and the `updatedAt` timestamp are not modelled. `createdAt` is represented by the creation counter.
- Password hashing with bcrypt is not modelled: a hash is modelled by its password, so salts and bcrypt's 72-byte input limit are outside the model.
- JWT signing and verification are not modelled. Verification is the `verify` parameter, so signatures, expiry and the fallback secret are not modelled.
- The e-mail regular expression is not modelled; it is the `isEmail` parameter.
- Concurrency is not modelled. The per-post comment counts are computed as a pure count. The race between a handler's existence check and its write is outside the model.
- Store.BlogStore.Register: the unique index on `email` (error 11000) can only fire under such a race. In the sequential model the explicit duplicate check always answers first, so `EmailExists` is reachable only through `Policy.Classify`.
- Pagination.OrDefault: the parameter is the value `parseInt` returns, so a leading-digit string such as "2abc" arrives as 2. Negative page or limit values are not modelled. Ceiling division is over integers with limit at least 1, not over floating-point numbers.
- An absent post or comment field in a request body is modelled as the empty string: the `required` validators and the `||` fallbacks of the update handler treat the two alike. The register and login fields are options, because there an absent e-mail changes the query and an absent password reaches bcrypt.
- `findOne({})` is taken to return the first user in creation order (MongoDB's natural order without deletions, and users are never deleted).
- The lookups by e-mail compare against the lower-cased e-mail, as Mongoose's `lowercase` option casts query values on that path.
- Records.NewUser: lower-casing covers ASCII letters only.
- String lengths everywhere (the schema limits and the 200-character preview) count characters, not UTF-16 code units.
- The client's I/O and rendering are not modelled: the `fetch` API object, `sessionStorage`, `window.confirm`, date formatting, React state and the JSX markup.
- The seed script that refills the database with sample data is not modelled.

## Findings

| source | as written | input that shows it | evidently intended | confidence | as-written member | corrected member |
|---|---|---|---|---|---|---|
| backend/server.js:224-225 | a login body without a password calls `bcrypt.compare(undefined, hash)` for a registered e-mail, which rejects and becomes a 500; an unknown e-mail gets the 401, so the status tells which e-mails have accounts | `{ email: <registered e-mail> }` against `{ email: <unknown e-mail> }` | the same 401 "Invalid email or password" for both | not executed | Store.LoginWithoutPasswordRevealsAccount | Store.BlogStore.CheckedLogin |
| backend/server.js:219 | a login body without an e-mail makes the query `findOne({})`, so the password is checked against the first user, and that user's password logs in as them | `{ password: <first user's password> }` | no user is found without an e-mail, so 401 | not executed | Store.LoginWithoutEmailPicksFirstUser | Store.BlogStore.CheckedLogin |
