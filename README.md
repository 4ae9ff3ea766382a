# Social network backend: groups, friendships, posts and comments

This project is a Dafny model of the request handlers of a small social-network
backend (Express with Mongoose on MongoDB). It covers five parts:

- **Groups.** A group keeps three ordered id lists: managers, members and pending join
  requests. Users ask to join and cancel their requests. Managers accept or reject
  requests, promote and demote members, remove members, edit the group and delete it.
  A member may leave on their own.
- **Friendships.** Every user keeps three id lists: friends, requests sent and requests
  received. A friendship handler changes two users' records. The model proves that the
  handlers keep the two symmetries of this ledger: a request is listed as sent by one
  user exactly when the other lists it as received, and friendship goes both ways.
  A user's full profile is visible only to that user and to their friends. The profile
  update handler has its own username and phone rules.
- **Posts.** Posts are created, edited, deleted and liked. The feed and a group's post
  list come newest first, cut into pages.
- **Comments.** Comments are created, listed oldest first, edited and deleted by their
  authors. Deleting a post deletes its comments.
- **Validators.** The request validators run in front of these handlers on their routes;
  no store method calls one, and the model combines a validator with a handler only in
  `Posts.ValidatedContentFits`. This includes
  the e-mail pattern `^[\w-.]+@([\w-]+\.)+[\w-]{2,}$`, modelled as a scanner and proved
  to accept exactly the strings of the shape it describes.

Each collection is a class holding a map from ids to records (`GroupStore`,
`UserStore`, `PostStore`, `CommentStore`). Each handler that changes a collection is
a method on its class, and its contract ties the new map and the answer to a pure
function of the old map. The read-only listings `getFeedPosts` and `getGroupPosts`
are module-level methods (`Posts.FeedPage`, `Posts.GroupPostsPage`) that take the
maps as parameters. The profile check of `getUserProfileWithPosts` is the function
`Users.ProfileAccess`. The properties are proved about these functions. Mongoose's array operations are
modelled on `seq`:

- `push` appends;
- `pull` removes every occurrence (`Lists.Pull`);
- `$addToSet` appends only when the value is absent (`Lists.AddToSet`);
- `includes` is membership.

Error answers are `Err(NotFound | Forbidden(message) | BadRequest(message) |
Conflict | SchemaRejected)`. The first four stand for HTTP 404, 403, 400 and 409;
`SchemaRejected` stands for a document the schema refuses to save, which the source
hands to its error middleware (not part of this model).

Files:

- `base.dfy`: ids, `Ref` (a well-formed or malformed ObjectId string), `Option`,
  `Result` and the error kinds.
- `text.dfy`: JavaScript's `trim`, truthiness and UTF-16 `length`.
- `lists.dfy`: the array operations, and `OrderBy`, which sorts ids by a key.
- `validators.dfy`: validateMiddleware.js.
- `groups.dfy`: groupController.js.
- `users.dfy`: the friendship, profile and update handlers of userController.js.
- `posts.dfy`: postController.js.
- `comments.dfy`: commentController.js.

## Model

| member | source | states |
|---|---|---|
| Lists.Pull | controllers/groupController.js:108 | Mongoose `pull`: every occurrence of the value goes, every other entry stays with its multiplicity, and a list without the value is unchanged |
| Lists.PullPushed | controllers/groupController.js:90-108 | pulling a value that was just pushed onto a list not holding it gives the list back |
| Lists.AddToSet | controllers/groupController.js:150-151 | `$addToSet`: the old list is a prefix of the result, the value is present exactly once if it was absent, and no other count changes |
| Lists.FirstOther | controllers/groupController.js:191 | `find(id => !id.equals(u))`: None exactly when every entry is `u`, otherwise the first entry that is not `u` |
| Lists.FirstOtherIsHeadOfPull | controllers/groupController.js:191-194 | the successor chosen before the pull is the head of the member list after the pull |
| Lists.OrderBy | controllers/commentController.js:40-42 | the result lists each id of the set exactly once, in ascending key order |
| Text.Trim | middleware/validateMiddleware.js:30 | `trim` gives the empty string exactly for blank input, and otherwise starts and ends with a non-whitespace character |
| Text.TrimIsInfix | controllers/postController.js:31 | the trimmed text is a contiguous piece of the original with only whitespace cut on each side |
| Text.JsLength | middleware/validateMiddleware.js:60 | `length` counts UTF-16 units: between one and two per character, one per character inside the Basic Multilingual Plane |
| Text.IsTenDigits | middleware/validateMiddleware.js:16 | `/^\d{10}$/` accepts exactly the strings of ten characters each one of `0123456789` |
| Text.TenDigitsAreTrimmed | middleware/validateMiddleware.js:92 | a ten-digit string is not blank and trimming leaves it unchanged |
| Validators.EmailMatchesExactlyShape | middleware/validateMiddleware.js:12-13 | the e-mail scanner accepts exactly a non-empty local part over `[A-Za-z0-9_.-]`, one `@`, and two or more non-empty dot-separated labels over `[A-Za-z0-9_-]`, the last at least two characters long |
| Validators.UserCreationErrors | middleware/validateMiddleware.js:8-18 | each of the four errors is reported exactly when its check fails, in the order the checks run; "Email already exists" is reported for a registered e-mail, and also when no e-mail is sent and some user exists (the lookup then has no filter) |
| Validators.UserCreationReportsEveryFailure | middleware/validateMiddleware.js:10-18 | the request passes exactly when all four checks pass, and a request failing all four gets all four errors |
| Validators.ValidateGroupCreation | middleware/validateMiddleware.js:30-45 | first failing check wins: missing or blank name, name over 100 UTF-16 units, trimmed name already used, description over 500 units; each error exactly when the earlier checks pass and its own fails |
| Validators.ValidateContent | middleware/validateMiddleware.js:56-62 | content passes exactly when present, not blank and at most 300 units; a blank content is reported as required; the too-long message depends on post or comment |
| Validators.ValidateCommentCreation | middleware/validateMiddleware.js:70-80 | a failing content check is answered as the content check answers ("Content is required" or "Comment must be less than 300 characters"), before the post id is looked at; a good content with a missing or malformed post id fails with "Valid postId is required"; otherwise it passes |
| Validators.ValidateUserUpdate | middleware/validateMiddleware.js:88-94 | a blank username sent is refused; otherwise a phone sent that is not ten digits as sent is refused; the request passes exactly when neither holds, so absent fields and a non-blank username with a ten-digit phone pass |
| Groups.NewGroup | controllers/groupController.js:13-20 | the creator is the only manager and only member, nobody is pending, a blank or absent image gives the default image, and the group is well formed |
| Groups.RequestJoin | controllers/groupController.js:85-91 | a member is refused "Already a member", a pending user "Request already sent"; otherwise the user is appended to pending and nothing else changes |
| Groups.CancelJoin | controllers/groupController.js:105-109 | fails exactly when the user has no pending request; otherwise only that user leaves the pending list |
| Groups.RespondJoin | controllers/groupController.js:122-129 | a non-manager is Forbidden and an unknown request is refused; otherwise the user leaves pending and is appended to members exactly when accepted |
| Groups.ParseRole | controllers/groupController.js:141-143 | only the strings "admin" and "user" are roles |
| Groups.UpdateRole | controllers/groupController.js:147-152 | fails exactly for a non-manager; otherwise the target is a member (added once if absent), a manager exactly when the role is admin, and nobody else's standing changes; the lists are exactly `$addToSet` on members and `$addToSet` or `$pull` on managers |
| Groups.SelfLeave | controllers/groupController.js:183-197 | corrected self-leave: the group is deleted exactly when the leaver is a member and nobody else is; otherwise the leaver leaves both lists, a sole manager hands over to the first other member, and the group stays well formed |
| Groups.SelfLeaveAsWritten | controllers/groupController.js:183-197 | as written: the group is deleted exactly when the member list has one entry, whoever it is; otherwise the leaver is pulled from members; a sole manager is succeeded by the first other member, or by the generated id when `find` finds none, and the leaver is pulled from managers |
| Groups.Leave | controllers/groupController.js:177-205 | Forbidden exactly when the actor is neither the target nor a manager; a self-leave follows SelfLeave; a manager's removal pulls the target from both lists and keeps the group well formed |
| Groups.LeaveAsWritten | controllers/groupController.js:177-205 | the handler as written: the same Forbidden rule and manager removal as Leave, with the self-leave of SelfLeaveAsWritten, so a self-leave from a group with one member entry deletes it |
| Groups.LeaveAgreesWithCodeOnDistinctMembers | controllers/groupController.js:183-197 | when the leaver is a member and no member is listed twice, the corrected Leave and the code as written give the same answer |
| Groups.Edit | controllers/groupController.js:218-223 | only managers may edit; a truthy name or description replaces the old one, a non-blank image replaces the image, and the lists are kept |
| Groups.CancelUndoesRequest | controllers/groupController.js:90-108 | cancelling a join request gives back the group as it was before the request |
| Groups.StandingIn | controllers/groupController.js:64-67 | the listing flags: isMember exactly when the user is in members, isPending exactly when in the pending requests |
| Groups.JoinLifecycle | controllers/groupController.js:64-67 | request then accept moves a user's listing flags from (not member, pending) to (member, not pending), and each stage refuses a repeated request |
| Groups.DemotionCanLeaveNoManager | controllers/groupController.js:147-152 | a sole manager may demote themself, which leaves the group with no manager and nobody able to promote again |
| Groups.PromotedThenAcceptedIsListedTwice | controllers/groupController.js:124-152 | promoting a pending user and then accepting their request lists them twice among the members |
| Groups.NonMemberDeletesSingleMemberGroup | controllers/groupController.js:184-187 | as written, a non-member "leaving" a one-member group deletes it; the corrected self-leave leaves the group as it is |
| Groups.ManagerLeavesDuplicatedMember | controllers/groupController.js:188-197 | as written, and alike under the corrected rule: from members [c, v, v] with managers [c, v], c's leave gives a well-formed group whose members are [v, v] and whose managers are [v] |
| Groups.LastDuplicatedMemberLeavesPhantomManager | controllers/groupController.js:188-195 | as written, v leaving members [v, v] with managers [v] leaves no members and a newly generated id as the only manager; the corrected self-leave deletes the group |
| Groups.ReplaceKeepsNamesUnique | models/Group.js:5-11 | replacing a group keeps names unique when the new name is its old one or unused by the others |
| Groups.GroupStore.CreateGroup | controllers/groupController.js:6-20 | a name already in use is a Conflict and nothing changes; with no name sent, the lookup has no filter, so any existing group makes it a Conflict, and with no group the schema refuses it; otherwise the new group is stored under a new id |
| Groups.GroupStore.RequestToJoin | controllers/groupController.js:79-97 | NotFound for an unknown group; otherwise RequestJoin's answer, stored when it succeeds |
| Groups.GroupStore.CancelJoinRequest | controllers/groupController.js:99-114 | NotFound for an unknown group; otherwise CancelJoin's answer, stored when it succeeds |
| Groups.GroupStore.RespondJoinRequest | controllers/groupController.js:116-135 | NotFound for an unknown group; otherwise RespondJoin's answer, stored when it succeeds |
| Groups.GroupStore.UpdateMemberRole | controllers/groupController.js:137-167 | an invalid role is refused before the lookup; NotFound for an unknown group; otherwise UpdateRole's answer, stored when it succeeds |
| Groups.GroupStore.LeaveOrRemove | controllers/groupController.js:169-209 | NotFound for an unknown group; otherwise the corrected Leave's answer, and the group is removed or replaced accordingly, keeping every stored group well formed |
| Groups.GroupStore.UpdateGroup | controllers/groupController.js:211-230 | NotFound, then the manager check; a rename to a name another group holds is refused by the unique index on names (answered as Conflict); otherwise the edited group is stored and names stay unique |
| Groups.GroupStore.DeleteGroup | controllers/groupController.js:246-258 | NotFound for an unknown group; a non-manager gets "Only managers can delete"; a manager removes the group, and only it |
| Users.Befriend | controllers/userController.js:121-124 | the two users become each other's friends, the request leaves the sender's sent list and the receiver's received list, and profiles and other users are untouched |
| Users.ListRequest | controllers/userController.js:132-133 | the request is listed as sent by one user and received by the other, and nothing else changes |
| Users.UnlistRequest | controllers/userController.js:184-185 | the request leaves both lists, and nothing else changes |
| Users.Unfriend | controllers/userController.js:206-207 | each user leaves the other's friend list, and nothing else changes |
| Users.BefriendKeepsLedger | controllers/userController.js:159-162 | befriending keeps both ledger symmetries |
| Users.ListRequestKeepsLedger | controllers/userController.js:132-133 | listing a request keeps both ledger symmetries |
| Users.UnlistRequestKeepsLedger | controllers/userController.js:184-185 | unlisting a request keeps both ledger symmetries |
| Users.UnfriendKeepsLedger | controllers/userController.js:206-207 | unfriending keeps both ledger symmetries |
| Users.ProfilesKeptKeepsPhonesUnique | models/User.js:18-21 | a change that keeps both touched users' profiles keeps phone numbers unique |
| Users.SendRequest | controllers/userController.js:116-133 | NotFound for a missing user; a request crossing one from the recipient is auto-accepted (the new map is Befriend's); a repeated request is refused; otherwise the request is listed on both sides (ListRequest's map); profiles and all other records are kept; the ledger is kept |
| Users.Accept | controllers/userController.js:153-162 | NotFound for a missing user; refused without a request from the sender; otherwise the new map is Befriend's: the two become friends, the request is gone from both sides, everything else and both profiles are kept; the ledger is kept |
| Users.Cancel | controllers/userController.js:182-185 | NotFound exactly when the receiver is missing; otherwise the new map is UnlistRequest's: only that request leaves both lists, the other lists and both profiles are kept; the ledger is kept |
| Users.RemoveFriend | controllers/userController.js:204-207 | NotFound exactly when the friend is missing; otherwise the new map is Unfriend's: only the friendship goes, from both sides, pending lists and profiles are kept; the ledger is kept |
| Users.ProfileAccess | controllers/userController.js:223-228 | NotFound for a missing owner; the profile is shown exactly to the owner and to the owner's friends, and anyone else is denied "Not a friend" |
| Users.UpdateUserCheck | controllers/userController.js:58-75 | in order: a blank username sent is refused, then a non-blank phone whose trimmed text is not ten digits, then a trimmed phone another user holds; each exactly when the earlier checks pass |
| Users.UpdatedFields | controllers/userController.js:77-80 | a non-blank username is stored trimmed, a phone sent is stored trimmed or cleared when blank, an image sent replaces the image, and e-mail and lists are kept |
| Users.UpdateUser | controllers/userController.js:58-90 | the checks come first, then NotFound for a missing user; otherwise only the target's record changes, to UpdatedFields |
| Users.NewFieldsKeepLedger | controllers/userController.js:77-80 | replacing a record with one that keeps its three lists keeps the ledger |
| Users.UpdateKeepsPhonesUnique | controllers/userController.js:67-79 | a successful update keeps phone numbers unique across users |
| Users.PaddedPhoneIsTrimmed | controllers/userController.js:62-79 | the handler accepts " 0123456789 " and stores "0123456789", although the text as sent is not ten digits |
| Users.CrossingRequestsMakeFriends | controllers/userController.js:119-133 | a request from a to b followed by one from b to a makes them friends with no request left on either side |
| Users.SecondRequestRefused | controllers/userController.js:129-130 | sending the same request twice is refused "Friend request already sent" |
| Users.SelfRequestMakesSelfFriend | controllers/userController.js:116-133 | nothing stops a user from sending a request to themself; the second such request makes them their own friend |
| Users.AcceptOpensProfiles | controllers/userController.js:159-160 | after an accept each of the two may see the other's profile |
| Users.CancelUndoesRequest | controllers/userController.js:182-186 | cancelling a request just sent gives back the users as they were |
| Users.CancelIdempotent | controllers/userController.js:184-185 | cancelling twice is cancelling once |
| Users.RemoveIdempotent | controllers/userController.js:206-207 | removing a friend twice is removing once |
| Users.UserStore.SendFriendRequest | controllers/userController.js:107-141 | the answer and the new users map are SendRequest's; the ledger and unique phones are kept |
| Users.UserStore.AcceptFriendRequest | controllers/userController.js:144-170 | the answer and the new users map are Accept's; the ledger and unique phones are kept |
| Users.UserStore.CancelFriendRequest | controllers/userController.js:173-192 | the answer and the new users map are Cancel's; the ledger and unique phones are kept |
| Users.UserStore.RemoveFriendOf | controllers/userController.js:195-214 | the answer and the new users map are RemoveFriend's; the ledger and unique phones are kept |
| Users.UserStore.UpdateUserFields | controllers/userController.js:53-105 | the answer and the new users map are UpdateUser's; the ledger and unique phones are kept |
| Comments.OnPost | controllers/commentController.js:40 | exactly the ids of the comments on the post |
| Comments.EditComment | controllers/commentController.js:57-67 | NotFound for a missing comment, Forbidden for someone else's; the author's comment gets the new content and nothing else changes |
| Comments.RemoveComment | controllers/commentController.js:84-94 | NotFound for a missing comment, Forbidden for someone else's; the author's comment and only it is removed |
| Comments.WithoutPost | controllers/postController.js:131 | exactly the comments on other posts remain, unchanged |
| Comments.CascadeClearsOnlyThatPost | controllers/postController.js:131-132 | after the cascade the deleted post has no comments and every other post keeps exactly its own |
| Comments.CommentStore.CreateComment | controllers/commentController.js:9-19 | NotFound for an unknown post; otherwise a new comment by the actor on that post, under a new id |
| Comments.CommentStore.CommentsByPost | controllers/commentController.js:36-49 | exactly the post's comments, each once, oldest first |
| Comments.CommentStore.UpdateComment | controllers/commentController.js:51-77 | the answer and the new comments map are EditComment's |
| Comments.CommentStore.DeleteComment | controllers/commentController.js:79-100 | the answer and the new comments map are RemoveComment's |
| Comments.CommentStore.DeletePostComments | controllers/postController.js:131 | the comments map becomes WithoutPost of the old one |
| Posts.TrimmedIsNoLonger | controllers/postController.js:31 | trimming never makes content longer in UTF-16 units |
| Posts.NewPost | controllers/postController.js:12-34 | blank content, then a malformed group id, then an unknown group, then a non-member author are refused in that order; otherwise the post holds the trimmed content, no likes and the group id |
| Posts.FindPost | controllers/postController.js:94-99 | a malformed id is refused, an unknown one is NotFound, otherwise the post is found |
| Posts.EditPost | controllers/postController.js:94-104 | the lookup errors, then "Not your post" for another author; the author's post gets the trimmed content when it is not blank, and nothing else changes |
| Posts.RemovePost | controllers/postController.js:121-132 | the lookup errors, then "Not your post"; the author's post and only it is removed |
| Posts.ToggleLike | controllers/postController.js:151-160 | the user's like is flipped, nobody else's changes, and the answer gives the new count and whether the user now likes the post |
| Posts.ToggleTwice | controllers/postController.js:151-153 | toggling twice gives back the same likers, and the same post when the user had not liked it |
| Posts.ValidatedContentFits | controllers/postController.js:30-31 | content that passed the validator is stored within 300 UTF-16 units, on creation and on edit |
| Posts.PagingOf | controllers/postController.js:49-51 | the page is at least 1 (default 1), the limit at most 50 (default 20), and skip is (page - 1) * limit |
| Posts.Window | controllers/postController.js:72-73 | `skip` then `limit`: the window is the run of entries starting at skip, as long as the limit allows |
| Posts.HasMoreMeansMoreAfter | controllers/postController.js:81 | `hasMore` holds exactly when the page is full and some entry comes after it |
| Posts.FeedIds | controllers/postController.js:55-65 | exactly the posts by the user, by the user's friends, or in a group that lists the user as a member |
| Posts.ListPage | controllers/postController.js:67-82 | the page is the chosen posts newest first, cut to the window; total and hasMore are counted over all chosen posts |
| Posts.FeedPage | controllers/postController.js:47-83 | the feed page is the feed posts newest first, cut to the paging, with its total and hasMore |
| Posts.GroupPostsAccess | controllers/postController.js:171-187 | a malformed group id is refused, an unknown group is NotFound, and only members may view |
| Posts.InGroup | controllers/postController.js:190 | exactly the posts whose group is the given group |
| Posts.GroupPostsPage | controllers/postController.js:167-206 | the access errors first; otherwise the group's posts newest first, cut to the paging, with their total and hasMore |
| Posts.GroupPostReachesMembers | controllers/postController.js:57-63 | a post made in a group appears in the feed of every member of that group |
| Posts.PostStore.CreatePost | controllers/postController.js:7-45 | the answer is NewPost's; a created post is stored under a new id |
| Posts.PostStore.UpdatePost | controllers/postController.js:90-116 | the answer and the new posts map are EditPost's |
| Posts.PostStore.DeletePost | controllers/postController.js:119-139 | the answer and the new posts map are RemovePost's, and a deleted post's comments are removed |
| Posts.PostStore.ToggleLikePost | controllers/postController.js:141-165 | the lookup errors; otherwise the post is replaced by ToggleLike's post and the answer is its reply |

## Left out

- Routing, application bootstrap, the database connection and the search and traffic routes are not modelled.
- The authentication middleware (authMiddleware.js) is not part of this model. The acting user's id is a parameter of each handler.
- Users.Cancel: requires the acting user to exist. The handler reads the sender's record without a check, so a missing sender is an exception in the source, not an answer.
- Users.RemoveFriend: requires the acting user to exist, for the same reason.
- Users.UserStore.CancelFriendRequest and Users.UserStore.RemoveFriendOf carry the same requirement.
- Posts.FeedPage: requires a limit that is absent or not negative. A negative `limit` query makes MongoDB return a single batch, which is not modelled.
- Posts.GroupPostsPage: requires a limit that is absent or not negative, for the same reason.
- Posts.Window: defined for a limit of at least 1 only, which is every limit PagingOf gives from a non-negative query.
- Query numbers are modelled as optional integers. Fractional values, `NaN` and non-numeric text are not modelled; a missing value and 0 both mean "use the default".
- Schema-level rules (required fields, `maxlength`, the `trim` setter on group names, the default profile image) are not modelled, except the default group image and a missing group name (Groups.GroupStore.CreateGroup answers SchemaRejected when no group exists). Group names are stored as sent. An empty, blank or over-long name and a missing description are not refused by the model, although the schema refuses them on save.
- Database unique indexes are modelled only for group names and phones. The e-mail and user-id indexes, and the phone index treating an absent phone as a value, are not modelled.
- Groups.Leave: its self-leave branch applies the corrected SelfLeave, not the code at controllers/groupController.js:183-197 (see Findings). The code as written is Groups.LeaveAsWritten, and Groups.LeaveAgreesWithCodeOnDistinctMembers shows that the two agree whenever the leaver is a member and no member is listed twice, which rules out both findings.
- Groups.GroupStore.LeaveOrRemove: the store applies the corrected Leave. Its invariant that every stored group is well formed (at least one member, and every manager a member) holds for that rule only; the code as written can break it (Groups.LastDuplicatedMemberLeavesPhantomManager).
- Groups.GroupStore.UpdateGroup: a rename to a taken name fails in the database's unique index, and the error goes on to middleware/errorMiddleware.js. That file is not part of this model, so the answer is modelled as Conflict.
- The translation of duplicate-key error 11000 in updateUser is not modelled; the handler's own phone check comes first.
- The populated fields (`populate`, `select`) of each answer are not modelled. Answers are ids, records or the reply fields the model names.
- getMyGroups, listAllGroups' paging and sorting, getGroupById, getUserById, createUser, getMyFriends, getPendingRequests and the posts listing on a user's profile are not modelled. Of listAllGroups only the isMember and isPending flags are modelled (Groups.StandingIn).
- Two-document updates run concurrently (`Promise.all`) in the source. The model applies both changes as one step, so interleavings and partial failures are not modelled.
- `ObjectId.isValid` is modelled as a well-formed or malformed `Ref`, and id equality as equality of numbers.
- Ids that handlers take from the path without calling `ObjectId.isValid` (every handler in controllers/groupController.js, the friendship handlers, updateUser and the profile handler in controllers/userController.js, and getCommentsByPost and the update and delete handlers in controllers/commentController.js) are modelled as well-formed ids. A malformed one makes the lookup throw a cast error, which the source answers with 500; the model cannot express that request.
- Groups.RespondJoin: its `accept` parameter is a `bool` standing for `!!accept`, the JavaScript truthiness of the body field the handler tests, so `"false"` or `1` in the request is an acceptance.
- Timestamps (`createdAt`) are integer parameters; the clock is not modelled.
- models/Comment.js is not part of this model. A comment's fields are taken from the handlers.
- The updateUser handler has no ownership check in the source; the model keeps that (any acting user may update any record).
- validateGroupCreation and validateUserUpdate are modelled as functions. They are not attached to any route in the source. No store method calls any validator: the routes run the attached ones in front of the handlers, and the model combines a validator with a handler only in Posts.ValidatedContentFits.
- Request body fields are modelled as absent (`None`) or as strings. A JSON body can also carry `null`, numbers, booleans, arrays or objects, and the source then behaves in ways the model does not express: `{"phone": null}` in updateUser skips the phone check and then throws on `trim` (a 500), a number in updateUser's phone or in validateUserCreation's username throws on `trim`, and a numeric phone sent to validateUserCreation is turned into a string by the regular-expression test and can pass it.

## Findings

| source | as written | input that shows it | evidently intended | confidence | as-written member | corrected member |
|---|---|---|---|---|---|---|
| controllers/groupController.js:184-187 | the group is deleted whenever `members` has one entry, whoever asks to leave | any user not in a one-member group sends DELETE for their own id on that group | only the last member leaving deletes the group; a non-member's leave changes nothing | not executed | Groups.NonMemberDeletesSingleMemberGroup | Groups.SelfLeave |
| controllers/groupController.js:188-195 | when the sole manager leaves and every entry of `members` is that manager, `find` gives `undefined` and `new ObjectId(undefined)` installs a newly generated id as manager | members [v, v] and managers [v] (reached by promoting a pending user and then accepting them, after the creator leaves); v leaves | the group is deleted, as for any last member | not executed | Groups.LastDuplicatedMemberLeavesPhantomManager | Groups.SelfLeave |
