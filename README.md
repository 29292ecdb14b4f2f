# hatchr backend rules in Dafny

hatchr is a social network for project builders. Users sign up with an email
one-time code, create projects, post media updates into them, vote and comment
on posts, follow each other and chat. This project models the backend's domain
rules and two small frontend helpers, and proves properties about them:

- the one-time-code helpers;
- the signup / verify-otp / resend-otp / login life cycle of a user record;
- the upvote and downvote toggles, comments, post creation and deletion, and
  the feed annotation;
- the follow toggle and the profile-update whitelist;
- the bearer-header guard;
- project creation, listing, update and cascading deletion;
- the get-or-create of a direct chat, and sending and listing messages;
- the server's user-to-socket registry;
- the upload filter and limits, and media URL resolution;
- the User, Post and Project schemas.

The store is one `Db` object (module `Store`) holding every collection as a
sequence in insertion order. `findOne` is the first match in that order, and
each handler runs as one atomic step. The collaborators are parameters:

- time is `now`, in milliseconds;
- the random draw of `generateOTP` is the integer offset it turns into;
- the bcrypt hash is a string argument, and bcrypt's compare is a function
  argument;
- the JWT signature is the `SessionToken(id)` payload, and JWT verification is
  a function `string -> Option<Id>`;
- mail delivery, a completed upload and the socket server's state are
  booleans or options.

The model follows the code as written, also where the source's own comments
and messages say otherwise:

- `isOTPValid` still accepts a code at exactly its expiry instant, because
  expiry is a strict `>`;
- verify-otp without an email answers 500, not the 400 "Email and OTP are
  required" of backend/routes/auth.js:93-98, because the email is lowered
  (line 80) before that presence check;
- the resend cooldown is 50 minutes counted from the expiry, which is one hour
  after issue, although the comment at backend/routes/auth.js:183 says "only
  if OTP expired or after 1 hour" and the mail of
  backend/config/emailService.js:28 says the code expires in 10 minutes;
- the follow notification, which the comment at backend/routes/users.js:44
  calls a notification "about follow", goes out on unfollow too, with kind
  "unfollow";
- `GET /posts` is mounted without the auth middleware, so the
  `req.user?._id || req.userId` of backend/routes/posts.js:23 is always
  undefined and its vote flags are always false.

## Model

| member | source | states |
|---|---|---|
| OtpHelper.GenerateOtp | backend/utils/otpHelper.js:3-5 | the code is six decimal digits and denotes 100000 + the random offset, so it lies in [100000, 999999] |
| OtpHelper.NatToStringRoundTrip | backend/utils/otpHelper.js:4 | reading back the decimal string of a number gives the number |
| OtpHelper.NatToStringLength | backend/utils/otpHelper.js:4 | a number in [10^k, 10^(k+1)) is written with k + 1 digits |
| OtpHelper.ExpiryTime | backend/utils/otpHelper.js:7-9 | the expiry is `minutesValid` minutes after now, 600000 ms when the argument is left out |
| OtpHelper.IsOtpExpired | backend/utils/otpHelper.js:11-13 | expired exactly when now is strictly later than the expiry |
| OtpHelper.IsOtpValid | backend/utils/otpHelper.js:15-19 | valid only when both codes are truthy and the code has not expired; then valid iff the stored code equals the supplied value as a string |
| OtpHelper.ExpiryIsInclusive | backend/utils/otpHelper.js:11-17 | a code is accepted at its expiry instant and refused one millisecond later |
| OtpHelper.NumericCodeMatches | backend/utils/otpHelper.js:18 | a code sent as the JSON number n matches the stored string of n |
| OtpHelper.FreshCodeAcceptedForTenMinutes | backend/utils/otpHelper.js:3-19 | a fresh code, as text or as a number, is accepted iff now is at most ten minutes after issue; any other text is refused |
| OtpHelper.ClearedCodeNeverMatches | backend/utils/otpHelper.js:16 | a null or empty stored code matches nothing |
| UserModel.NewUser | backend/models/User.js:3-17 | the given fields; empty avatar, bio, followers and following; null code and expiry; unverified; the required fields hold iff all four are non-empty |
| PostModel.ParsePostType | backend/models/Post.js:12-16 | no type gives 'update'; an accepted type is stored as the given string; a string outside the enum fails validation |
| PostModel.TypeNameRoundTrip | backend/models/Post.js:12-16 | each kind survives being stored as its name and read back |
| PostModel.NewPost | backend/models/Post.js:3-20 | the caption defaults to ''; the kind is 'update'; the vote and comment lists start empty; the required fields hold iff mediaUrl and project are non-empty |
| ProjectModel.SkipSpaces | backend/models/Project.js:12 | the index reached by skipping whitespace forward: everything skipped is whitespace, and it stops at the end or at a non-space |
| ProjectModel.SkipSpacesBack | backend/models/Project.js:12 | the index reached by skipping whitespace backward down to a lower bound: everything skipped is whitespace, and it stops at the bound or just after a non-space |
| ProjectModel.Trim | backend/models/Project.js:12 | the result is the contiguous slice of the input left after cutting all whitespace before and after it; it neither starts nor ends with whitespace, and it is empty iff the input is all whitespace |
| ProjectModel.TrimIdempotent | backend/models/Project.js:9-22 | trimming twice is trimming once |
| ProjectModel.SetTrimmed | backend/models/Project.js:9-22 | a given value is stored trimmed; an absent one stays absent |
| ProjectModel.NewProject | backend/models/Project.js:3-29 | saved iff the owner, the trimmed title and the trimmed category are non-empty; the saved project has those trimmed values and an empty post list |
| ProjectModel.PostCount | backend/models/Project.js:37-39 | the length of `posts`, or 0 when it is absent |
| Store.UserById | backend/routes/users.js:30-31 | the index of the first user with the id; none iff no user has it |
| Store.UserByEmail | backend/routes/auth.js:82 | the index of the first user with the email; none iff no user has it |
| Store.UserByUsername | backend/routes/projects.js:56 | the index of the first user with the username; none iff no user has it |
| Store.UserByEmailOrUsername | backend/routes/auth.js:28 | the index of the first user whose email or username matches; none iff no user matches either |
| Store.PostById | backend/routes/posts.js:176 | the index of the first post with the id; none iff no post has it |
| Store.ProjectById | backend/routes/posts.js:100 | the index of the first project with the id; none iff no project has it |
| Store.ChatById | backend/routes/messages.js:24 | the index of the first chat with the id; none iff no chat has it |
| Sorting.SortBy | backend/routes/posts.js:25 | the result is ordered by the key and is a permutation of the input: the same multiset, hence the same length and members |
| AuthRoutes.Reissued | backend/routes/auth.js:44-48 | a reused record gets the new hash, the new code and expiry and is unverified; name, username, email and everything else are kept |
| AuthRoutes.MarkVerified | backend/routes/auth.js:125-127 | the record is verified and its code and expiry are null; nothing else changes |
| AuthRoutes.ResendAllowed | backend/routes/auth.js:183-192 | with no stored expiry a resend is allowed; otherwise it is allowed iff now is at least 50 minutes after the expiry |
| AuthRoutes.LowerChar | backend/routes/auth.js:80 | an ASCII upper-case letter becomes the letter 32 code points later; every other character is kept; the result is never upper-case |
| AuthRoutes.ToLower | backend/routes/auth.js:80 | ASCII upper-case letters are lowered, every other character is kept, and no upper-case letter remains |
| AuthRoutes.Signup | backend/routes/auth.js:13-73 | 400 when a field is missing; 400 when the first email-or-username match is verified; otherwise that match is reused, or a new user is appended, with a fresh code mailed to the request email; 201, or 500 when mail fails with the record still saved; unique keys and ids are kept |
| AuthRoutes.SessionFor | backend/routes/auth.js:137-148 | the session carries the user's id, username and email, and its token is signed for that id |
| AuthRoutes.VerifyOtp | backend/routes/auth.js:76-154 | 500 without an email; 404 for an unknown lowered email; 400 when a code is missing; 400 when already verified; 400 when the code is not valid, leaving the record unchanged; otherwise the record is marked verified and a session is returned |
| AuthRoutes.ResendOtp | backend/routes/auth.js:157-221 | 400 without an email; 404; 400 when verified; 429 during the cooldown; otherwise a fresh ten-minute code is stored and mailed, with 200, or 500 when mail fails and the code stays stored |
| AuthRoutes.Login | backend/routes/auth.js:224-290 | 400 for missing input; a session iff the first email-or-username match has a matching password and is verified; 403 carrying that match's id iff it matches but is unverified; otherwise 400 "Invalid credentials" |
| AuthRoutes.IssuedCodeAcceptedForTenMinutes | backend/routes/auth.js:40-47 | the code signup or resend stores is accepted for exactly ten minutes, and a different code never is |
| AuthRoutes.VerifiedRecordAcceptsNoCode | backend/routes/auth.js:118-127 | after verification no code is accepted |
| AuthRoutes.ResendWaitsAnHourAfterIssue | backend/routes/auth.js:184-198 | after a code issued at t, a resend is allowed iff now is at least t + 60 minutes |
| AuthRoutes.ResendRefusedWhileCodeLive | backend/routes/auth.js:184-191 | while a stored code can be accepted, a resend is refused |
| AuthRoutes.UpperCaseEmailNeverVerified | backend/routes/auth.js:25-82 | a user whose stored email has an upper-case letter is never found by verify-otp |
| AuthMiddleware.Split | backend/middleware/auth.js:7 | one more piece than separators, and no piece holds the separator |
| AuthMiddleware.JoinSplit | backend/middleware/auth.js:7 | joining the pieces of a split gives back the string |
| AuthMiddleware.SplitFirst | backend/middleware/auth.js:7 | the first piece is the text before the first separator |
| AuthMiddleware.SplitAfterWord | backend/middleware/auth.js:7 | a separator-free word followed by the separator splits off as the first piece |
| AuthMiddleware.TakeUntil | backend/middleware/auth.js:7 | the longest separator-free prefix |
| AuthMiddleware.ExtractToken | backend/middleware/auth.js:7 | after the case-sensitive "Bearer " the token is the second space-separated piece; any other header is the token itself |
| AuthMiddleware.HeaderOf | backend/middleware/auth.js:4 | the lower-case header when truthy, else the capitalised one |
| AuthMiddleware.Authenticate | backend/middleware/auth.js:3-18 | 401 "No token provided" iff no truthy header; 401 "Invalid token" for a truthy header whose token is empty; 401 "Token invalid or expired" for a non-empty token that does not verify; the request passes iff the token is non-empty and verifies, with `userId` and `user.id` both the decoded id |
| AuthMiddleware.ClientHeaderRoundTrip | backend/middleware/auth.js:7 | the header `Bearer ${token}` gives back a space-free token |
| AuthMiddleware.EmptyBearerRejected | backend/middleware/auth.js:8 | "Bearer " alone is refused with 401 "Invalid token" |
| AuthMiddleware.LowerCaseBearerUsedVerbatim | backend/middleware/auth.js:7 | "bearer abc" is used whole as the token |
| AuthMiddleware.TokenStopsAtSpace | backend/middleware/auth.js:7 | "Bearer a b" yields "a" |
| PostsRoutes.ToggleVote | backend/routes/posts.js:184-196 | a voter already in the own list is removed from it and the other list is untouched; otherwise the voter is appended to the own list once and removed from the other; never in both lists afterwards |
| PostsRoutes.Upvoted | backend/routes/posts.js:184-196 | the upvote toggle on a post; every other field is unchanged |
| PostsRoutes.Downvoted | backend/routes/posts.js:226-238 | the mirror image for downvotes |
| PostsRoutes.Upvote | backend/routes/posts.js:174-213 | 404 leaves the posts unchanged; otherwise the post becomes `Upvoted` and the reply carries the new list lengths, `hasUpvoted` = not previously upvoted, and `hasDownvoted` = false |
| PostsRoutes.Downvote | backend/routes/posts.js:216-255 | the mirror image of Upvote |
| PostsRoutes.VotesStayExclusive | backend/routes/posts.js:184-238 | a post whose vote lists are disjoint keeps them disjoint under both toggles |
| PostsRoutes.UpvoteTwiceRestores | backend/routes/posts.js:187-196 | two upvotes by a user absent from `upvotes` restore `upvotes` |
| PostsRoutes.DownvoteTwiceRestores | backend/routes/posts.js:229-238 | two downvotes by a user absent from `downvotes` restore `downvotes` |
| PostsRoutes.VoteReplyMatchesFeed | backend/routes/posts.js:199-205 | the vote reply's flags agree with what the annotation shows the voter afterwards |
| PostsRoutes.UpvoteReplyFromBothLists | backend/routes/posts.js:187-205 | for a user in both lists, the upvote reply says not upvoted while the user stays in `downvotes` |
| PostsRoutes.Annotate | backend/routes/posts.js:38-44 | the flags say whether a truthy viewer is in each list |
| PostsRoutes.AnnotateAll | backend/routes/posts.js:38-44 | one annotated entry per post, in order |
| PostsRoutes.Sorted | backend/routes/posts.js:24-25 | newest first, the same posts |
| PostsRoutes.Feed | backend/routes/posts.js:21-51 | every post once, newest first, all flags false |
| PostsRoutes.AddComment | backend/routes/posts.js:130-171 | 400 "Comment text is required"; 404; otherwise the comment is stored and its id appended to the post's comments |
| PostsRoutes.AttachPost | backend/routes/posts.js:99-105 | the post id is appended to the first project with that id, if any; other projects are unchanged |
| PostsRoutes.DetachPost | backend/routes/posts.js:279-285 | the owning project's post list becomes that list with every occurrence of the post id removed, the rest in order; other projects are unchanged |
| PostsRoutes.DetachUndoesAttach | backend/routes/posts.js:282 | attaching a new post then detaching it restores the projects |
| PostsRoutes.DeletePost | backend/routes/posts.js:258-299 | 404; 500 for a post without an author; 403 for a non-author; otherwise the post and its comments are gone and its id leaves its project |
| PostsRoutes.RemovePostKeepsOrder | backend/routes/posts.js:282 | detaching a post listed once leaves the ids before it followed by the ids after it |
| PostsRoutes.CreatePost | backend/routes/posts.js:54-127 | 400 without a file; 500 when saving the media fails; 500 when validation fails; otherwise the new post is appended, unvoted, linked to its project and answered with 201 |
| PostsRoutes.NewPostUnvoted | backend/routes/posts.js:88-127 | a new post is answered with no votes and no flags |
| UsersRoutes.ToggleFollow | backend/routes/users.js:34-41 | when already following, each id is filtered out of the other's list with the rest in order; otherwise each is appended once at the end; the membership flips on both sides together and all other fields are unchanged |
| UsersRoutes.FollowToggled | backend/routes/users.js:34-43 | only the two documents change, and ids, usernames and emails stay in place |
| UsersRoutes.FollowKeepsSymmetry | backend/routes/users.js:34-41 | a symmetric follow graph stays symmetric |
| UsersRoutes.FollowKeepsNoSelfFollow | backend/routes/users.js:28-41 | a toggle between two different users never makes anyone follow themselves |
| UserModel.AppendFreshKeepsUnique | backend/models/User.js:5-6 | a user with a new id, username and email can be added without breaking the unique indexes |
| UserModel.SameKeysKeepUnique | backend/models/User.js:5-6 | the unique indexes survive a change that keeps every key in place |
| UsersRoutes.ToggleFollowPreserves | backend/routes/users.js:34-43 | one toggle keeps the follow graph symmetric, keeps anyone from following themselves, and keeps ids, usernames and emails unique |
| UsersRoutes.FollowTwiceRestores | backend/routes/users.js:34-49 | two toggles restore both memberships of a consistent pair |
| UsersRoutes.Follow | backend/routes/users.js:25-54 | 400 for oneself; 404 for a missing user; otherwise the toggle, with `following` = not previously following and a follow or unfollow notice; symmetry, no self-follow and uniqueness are kept, with ids in one spelling (see "## Left out") |
| UsersRoutes.Whitelisted | backend/routes/users.js:60-62 | a key is in the update iff it is whitelisted and has a truthy value in the body, and it keeps that value |
| UsersRoutes.BuildUpdate | backend/routes/users.js:60-62 | the loop builds exactly `Whitelisted(body)`, never with a password |
| UsersRoutes.ApplyUpdate | backend/routes/users.js:63 | each updated path takes its new value; everything else is unchanged |
| UsersRoutes.EmptyFieldsIgnored | backend/routes/users.js:62 | an empty value in the body never reaches the document |
| UsersRoutes.UpdateProfile | backend/routes/users.js:57-66 | 403 unless the caller is the path user; 200 with no user for a missing one; 500 for a username or email clash; otherwise the update is applied, the password is kept and uniqueness holds |
| ProjectsRoutes.NewestFirst | backend/routes/projects.js:42 | newest first, the same projects |
| ProjectsRoutes.ProjectsOwnedBy | backend/routes/projects.js:41-42 | exactly the owner's projects, every copy kept and no other project, newest first |
| ProjectsRoutes.OwnedProject | backend/routes/projects.js:117 | the first project with that id and that owner |
| ProjectsRoutes.ForeignProjectNotFound | backend/routes/projects.js:145-149 | with unique ids, another user's project is not found |
| ProjectsRoutes.CreateProject | backend/routes/projects.js:11-36 | 500 when the upload fails or validation fails; otherwise the new project, owned by the caller, is appended with 201 |
| ProjectsRoutes.MyProjects | backend/routes/projects.js:39-50 | always 200 with exactly the caller's projects, newest first |
| ProjectsRoutes.ProjectsOfUsername | backend/routes/projects.js:53-72 | 404 "User not found" iff no user has the username; otherwise 200 with that user's projects, newest first |
| ProjectsRoutes.EditProject | backend/routes/projects.js:123-127 | only truthy fields are assigned, trimmed; everything else is unchanged |
| ProjectsRoutes.EmptyEditChangesNothing | backend/routes/projects.js:123-127 | an edit with nothing given changes nothing |
| ProjectsRoutes.UpdateProject | backend/routes/projects.js:115-140 | 404 for a missing or foreign project; 500 when the upload fails or a required field trims to nothing; otherwise the edited project is stored |
| ProjectsRoutes.BlankTitleRefused | backend/models/Project.js:9-13 | a new title is trimmed, and one of spaces alone fails validation |
| ProjectsRoutes.DeleteProject | backend/routes/projects.js:143-162 | 404 for a missing or foreign project; otherwise exactly that project's posts and then the project are removed |
| ChatsRoutes.FindChat | backend/routes/chats.js:14 | the first chat listing both users; none iff no chat lists both |
| ChatsRoutes.FindChatSymmetric | backend/routes/chats.js:14 | the lookup is the same for (a, b) and (b, a) |
| ChatsRoutes.GetOrCreate | backend/routes/chats.js:9-25 | the existing chat and no change, or a new chat `[me, other]` appended |
| ChatsRoutes.CreatedChatFoundNextTime | backend/routes/chats.js:14-18 | after a chat is created, either user of the pair finds it, so at most one is created |
| ChatsRoutes.SelfChatIsAnyChatOfMine | backend/routes/chats.js:14 | a chat with oneself is any chat that lists the caller |
| MessagesRoutes.Recipients | backend/routes/messages.js:35-39 | every member but the sender, in member order |
| MessagesRoutes.Send | backend/routes/messages.js:20-48 | 400 "Missing fields"; 404 "Chat not found" with nothing stored; otherwise the message is stored with the caller as sender and answered, events go to the other members up to a failing emit, and the answer does not depend on emit failures |
| MessagesRoutes.EmitStop | backend/routes/messages.js:31-41 | the emit loop reaches every member, or stops at the one whose emit throws |
| MessagesRoutes.Events | backend/routes/messages.js:37 | one event per recipient, in order |
| MessagesRoutes.ChatMessages | backend/routes/messages.js:11 | exactly that chat's messages, every copy kept and no other message, oldest first |
| MessagesRoutes.SentMessageListed | backend/routes/messages.js:11-27 | a sent message appears in its chat's listing, and other chats' listings are unchanged |
| SocketRegistry.WithoutSocket | backend/server.js:75-79 | exactly the entries whose socket differs, with their values |
| SocketRegistry.Registry.Register | backend/server.js:68-70 | the user now maps to the socket; other entries are unchanged |
| SocketRegistry.Registry.Disconnect | backend/server.js:75-79 | the map becomes `WithoutSocket` of the old map |
| SocketRegistry.DisconnectDropsEveryUserOfTheSocket | backend/server.js:70-79 | a socket registered under two users loses both, and other sockets' entries stay |
| SocketRegistry.RegisterLastWriteWins | backend/server.js:63-70 | a later registration replaces an earlier one |
| SocketRegistry.RegisterThenDisconnect | backend/server.js:68-79 | registering from an unused socket and disconnecting it removes exactly that user |
| UploadFilter.FileFilter | backend/config/multer.js:8-15 | accepted iff the mimetype starts with "image/" or "video/"; otherwise refused with the fixed message |
| UploadFilter.FilterExamples | backend/config/multer.js:10-14 | any image or video subtype is accepted; "IMAGE/png", "application/pdf" and "image" are refused |
| UploadFilter.WithinLimits | backend/config/multer.js:18-21 | a request is within the limits iff it has no file, or a single file of at most 10485760 bytes |
| UploadFilter.LimitBoundaries | backend/config/multer.js:18-21 | one file of 10485760 bytes is within the limits; one byte more, or a second file, is not |
| Media.Backend | frontend/src/lib/media.js:5 | the configured address when truthy, else "http://localhost:5000" |
| Media.ResolveMediaUrl | frontend/src/lib/media.js:1-9 | '' iff the url is falsy; absolute urls are returned unchanged; otherwise the backend followed by the path with exactly one added leading slash |
| Media.LeadingSlashOptional | frontend/src/lib/media.js:7 | "a" and "/a" resolve alike |
| Media.ResolveIdempotent | frontend/src/lib/media.js:3-8 | with an absolute backend, resolving twice is resolving once |
| Media.DefaultBackendIdempotent | frontend/src/lib/media.js:3-8 | with the default backend, resolving is idempotent |
| Scenarios.Enrolled | backend/routes/auth.js:40-50 | the record signup stores for a new user: its keys and hash, the drawn code expiring ten minutes later, unverified |
| Scenarios.SignupStep | backend/routes/auth.js:13-73 | signup into an empty store answers 201, stores exactly the enrolled record and mails its code; a login before verifying answers 403 |
| Scenarios.WrongCodeStep | backend/routes/auth.js:76-123 | a code the record does not accept is refused with 400 and the store is unchanged |
| Scenarios.RightCodeStep | backend/routes/auth.js:76-148 | a code the record accepts returns the session of the verified record, which replaces it |
| Scenarios.SignupVerifyLogin | backend/routes/auth.js:13-290 | signup 201; login before verifying 403; a wrong code 400; the mailed code a minute later 200 with a session; login then grants a session |
| Scenarios.DoubleUpvote | backend/routes/posts.js:174-213 | the first upvote answers upvoted with one more vote; the second answers not upvoted with the count restored |

## Left out

- The TTL index on `otp.expiresAt` (backend/models/User.js:19) deletes whole documents inside the database; the model never removes users.
- Media upload to Cloudinary or the local disk is a foreign service call; its outcome is the `mediaUrl` parameter (`None` when it fails).
- The avatar route (`POST /users/avatar`) is upload plumbing and is not modelled.
- Mail delivery is the `mailDelivered` flag; the message text and the transport are not modelled.
- bcrypt and JWT internals are foreign crypto: the hash is an opaque string, comparing is a parameter, a token is its `_id` payload, and the 7-day expiry is not modelled.
- Socket.io rooms, `join` and `emit` are transport; only the `userSockets` map, the recipients and the order of emitted events are modelled.
- Concurrency between requests is not modelled: each handler is one atomic step on the store.
- `GET /auth/me`, `GET /users/:username` and `GET /projects/:id` are plain reads and are not modelled.
- Stories (backend/routes/stories.js) are not mounted by the server and are not modelled.
- The Chat, Message and Comment schema files are not part of this model; those documents carry only the fields the handlers use.
- `populate` and field selection only shape replies; they are not modelled.
- MongoDB's tie order in `.sort` is not modelled: equal timestamps keep insertion order.
- A malformed ObjectId (a cast error, answered with 500) is not modelled: ids are plain strings.
- UsersRoutes.Follow: takes every id in one spelling, so its "no self-follow is kept" holds only for that spelling. `findById` casts the path id to an ObjectId and accepts upper-case hex, but the guard of backend/routes/users.js:28 and the `toString()` comparisons of lines 34-37 compare the raw strings. So `POST /follow/<own id in upper case>` passes the guard, loads the caller as both `me` and `target`, and saves the caller following themselves. Likewise an upper-case spelling of an already-followed id appends it a second time. Neither is modelled.
- How multer reports a limit it enforces is not modelled: `WithinLimits` states only which requests the limits admit.
- `Math.random()` is the integer offset it yields; floating-point rounding is not modelled.
- AuthRoutes.ToLower and AuthRoutes.LowerChar: lower only the ASCII letters; `toLowerCase` also maps other scripts.
- OtpHelper.JsonToString: writes integers only; JSON fractions, arrays and objects are not modelled.
