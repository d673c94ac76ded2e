# Treasured Memories API — interactions, notifications, image columns and ownership gates

This project models, in Dafny, the interaction core of the Treasured Memories
API, an Express/Sequelize back end for sharing "memories". It covers:

- following and unfollowing users;
- liking and unliking memories;
- listing, adding, deleting and updating comments;
- the notification feed, and marking one or all notifications read;
- the image-column handlers of the upload controller;
- the two ownership middlewares `isOwnerOrModerator` and `isOwnerOrAdmin`.

Every interaction handler has two forms:

- **A specification function** maps one database state (`Schema.Db`) to a
  status and the next state. Its contract states every error path and every
  changed row and counter.
- **A method of the `Storage.Store` class.** The class's fields are the
  tables. The method performs the handler's writes one statement at a time, in
  the handler's order. It is proved to leave exactly the state the
  specification computes. It also keeps the counter invariant
  `Schema.Consistent`: every followers, followings, like and comment counter
  equals the number of rows it counts.

The upload handlers are specified the same way:

- `UploadController` holds the validation chain, the path and list
  computations, and the value each handler writes back.
- `ImageStorage.ImageStore` writes that value into the row in place.

The code, rather than its documentation, decides the behaviour modelled:

- `removeFollow` decrements the three counters without a floor. A follow
  notification that was read before the unfollow therefore leaves the
  followed user's notification counter at -1 (`Scenarios.UnfollowAfterReadGoesNegative`),
  on a database that does not enforce the column's UNSIGNED type.
- `removeLikeFromMemory` answers 400, not 404, when the caller has no like on
  the memory.
- `readNotificationController`:
  - decrements the counter of the caller, not of the notification's
    recipient;
  - does not check that the caller owns the notification;
  - decrements again when the notification was already read.
- Only `addCommentController` pushes a realtime notification. Following and
  liking do not.
- The upload routes bind `:column`, but the handlers read `req.params.name`.
  Every routed upload request therefore has an empty name and is refused
  with 400 (`UploadController.RoutedRequestsAreRejected`).
- `isOwnerOrAdmin` reads properties of the looked-up row before testing that
  it exists. For a missing row it throws instead of answering 404.

Modelling choices:

- Counters are unbounded integers.
- `findOne` without an order returns the matching row with the smallest id.
- `findAll` without an order returns rows in id order.
- The feed orders rows with equal `createdAt` by id.
- An error handed to Express's `next` is answered with 500.

## Model

| member | source | states |
|---|---|---|
| Schema.Bump | src/controllers/follower.controller.ts:58-60 | `User.increment`/`decrement` on one counter: only that counter of that user moves, and an absent user changes nothing |
| Schema.RemoveUnreadNotification | src/controllers/like.controller.ts:145-162 | the read-gated cleanup: with no unread match nothing changes; otherwise exactly the first match is deleted, and the owner's counter drops by one only if it was positive |
| FollowerController.WithoutFollowNotifications | src/controllers/follower.controller.ts:132-138 | the NEW_FOLLOWER destroy removes exactly the rows of that pair, read or unread, and keeps every other row unchanged |
| FollowerController.AddFollow | src/controllers/follower.controller.ts:16-78 | missing id → 400, unknown user → 404, existing pair → 400, each with no change; 201 exactly otherwise, with one new pair, the followers/notification counters of the followed user and the followings counter of the caller each +1, and one unread notification |
| FollowerController.RemoveFollow | src/controllers/follower.controller.ts:87-147 | missing id → 400, unknown user → 404, no such pair → 400; 200 exactly otherwise, with the pair gone, the three counters −1 without a floor, and all NEW_FOLLOWER rows of the pair gone |
| FollowerController.AddFollowKeepsCountersConsistent | src/controllers/follower.controller.ts:53-60 | after `addFollow` every followers/followings counter still equals the number of follower rows |
| FollowerController.RemoveFollowKeepsCountersConsistent | src/controllers/follower.controller.ts:124-130 | the same for `removeFollow` |
| FollowerController.FollowTwiceIsRefused | src/controllers/follower.controller.ts:41-51 | a second follow of the same pair is refused with 400 and changes nothing |
| FollowerController.FollowUnfollowRestores | src/controllers/follower.controller.ts:53-140 | a follow then its unfollow leaves the state as before except that every NEW_FOLLOWER notification of the pair is gone and the notification id counter has moved on |
| FollowerController.FollowThenUnfollow | src/controllers/follower.controller.ts:53-140 | follow then unfollow restores users, counters and follower rows; the notification table loses every NEW_FOLLOWER row of the pair |
| LikeController.PutLike | src/controllers/like.controller.ts:16-88 | missing id → 400, unknown memory → 404, already liked → 400; 201 exactly otherwise, with one new like, like counter +1, a LIKE notification pointing at the like and carrying its time, and the owner's counter +1 if the owner exists |
| LikeController.RemoveLike | src/controllers/like.controller.ts:97-172 | missing id → 400, unknown memory → 404, no like by the caller → 400; 200 otherwise, with the first like deleted, like counter −1 without a floor, and the LIKE notification cleaned up only while unread |
| LikeController.PutLikeKeepsCountersConsistent | src/controllers/like.controller.ts:61-69 | after `putLikeToMemory` every like counter equals the number of like rows of its memory |
| LikeController.RemoveLikeKeepsCountersConsistent | src/controllers/like.controller.ts:142-165 | the same for `removeLikeFromMemory` |
| LikeController.LikeAddedFinds | src/controllers/like.controller.ts:61-153 | after a like, the removal finds exactly that like, and the new notification is among the unread matches (the only one when no older one matches) |
| LikeController.LikeUnlikeUsers | src/controllers/like.controller.ts:78-161 | a like then its removal restores every user row when the owner's counter was not negative |
| LikeController.LikeUnlikeRows | src/controllers/like.controller.ts:61-142 | a like then its removal restores the like rows |
| LikeController.LikeUnlikeMemories | src/controllers/like.controller.ts:66-165 | a like then its removal restores the memories' like counters |
| LikeController.LikeUnlikeNotifications | src/controllers/like.controller.ts:145-162 | a like then its removal restores the number of notifications, and the table itself when no older identical unread notification existed |
| LikeController.LikeThenUnlike | src/controllers/like.controller.ts:61-165 | like then unlike restores likes, memories and users, and the number of notifications; it restores the notification table when no older identical unread notification existed |
| CommentController.GetComments | src/controllers/comment.controller.ts:18-52 | missing id → 400, unknown memory → 404; otherwise 200 with exactly the memory's comments, each once |
| CommentController.AddComment | src/controllers/comment.controller.ts:61-143 | missing id → 400, then empty content → 400 before the lookup, unknown memory → 404; 201 exactly otherwise, with one comment, comment counter +1, a COMMENT notification and the owner's counter +1 if the owner exists |
| CommentController.DeleteComment | src/controllers/comment.controller.ts:152-221 | missing id → 400, unknown comment or memory → 404; 200 otherwise, with the comment gone, comment counter −1, and the unread COMMENT notification whose interactor is the requester cleaned up |
| CommentController.UpdateComment | src/controllers/comment.controller.ts:230-276 | missing id or empty content → 400, unknown comment → 404; 200 otherwise, with only that comment's content changed |
| CommentController.AddCommentKeepsCountersConsistent | src/controllers/comment.controller.ts:98-110 | after adding, every comment counter equals the number of comment rows of its memory |
| CommentController.DeleteCommentKeepsCountersConsistent | src/controllers/comment.controller.ts:190-213 | the same for deletion |
| CommentController.UpdateCommentKeepsCountersConsistent | src/controllers/comment.controller.ts:246-268 | the same for update |
| CommentController.DeleteByAnotherKeepsTheirNotifications | src/controllers/comment.controller.ts:193-210 | deleting a comment never removes a notification whose interactor is someone other than the requester |
| CommentController.CommentDeleteUsers | src/controllers/comment.controller.ts:116-209 | a comment then its deletion by the author restores every user row when the owner's counter was not negative |
| CommentController.CommentDeleteRows | src/controllers/comment.controller.ts:98-213 | a comment then its deletion by the author restores the comment rows |
| CommentController.CommentDeleteMemories | src/controllers/comment.controller.ts:104-190 | a comment then its deletion by the author restores the memories' comment counters |
| CommentController.CommentDeleteNotifications | src/controllers/comment.controller.ts:106-204 | a comment then its deletion by the author restores the number of notifications, and the table itself when no older identical unread notification existed |
| CommentController.CommentThenDelete | src/controllers/comment.controller.ts:98-213 | on the handlers themselves: the comment answers 201, the deletion 200, and comments, memories, users and the number of notifications are restored; the notification table too when no older identical unread notification existed |
| NotificationController.NewestFirst | src/controllers/notification.controller.ts:18-21 | the ordering: every id once, nothing else, `createdAt` non-increasing |
| NotificationController.Feed | src/controllers/notification.controller.ts:14-29 | exactly the caller's notifications, each once, newest first |
| NotificationController.UnreadFeed | src/controllers/notification.controller.ts:38-53 | exactly the caller's unread notifications, each once, newest first; as many as the unread count |
| NotificationController.ReadNotification | src/controllers/notification.controller.ts:62-90 | missing id or unknown notification → 404 with no change; otherwise 200, with the flag set whoever the recipient is, and the caller's counter −1 only if positive |
| NotificationController.MarkAllRead | src/controllers/notification.controller.ts:114-117 | the bulk update flips exactly the recipient's rows and leaves none of them unread |
| NotificationController.ReadAll | src/controllers/notification.controller.ts:99-148 | a failure at any executed step → 500 with every table as before; otherwise 200, with no unread row left for the caller, and the counter set to max(0, c − n) when it was positive |
| NotificationController.ReadAllIsIdempotent | src/controllers/notification.controller.ts:104-130 | a second read-all changes nothing |
| NotificationController.ReadsKeepCountersConsistent | src/controllers/notification.controller.ts:62-148 | neither read handler disturbs the follow, like or comment counters |
| NotificationController.ReadingTwiceCountsTwice | src/controllers/notification.controller.ts:75-80 | reading the same notification twice decrements the caller's counter twice |
| Storage.Store.constructor | src/controllers/follower.controller.ts:53-70 | the store starts with the given tables and no realtime pushes |
| Storage.Store.Restore | src/controllers/notification.controller.ts:138-140 | the transaction rollback restores every table |
| Storage.Store.BumpUser | src/controllers/follower.controller.ts:58-60 | the in-place `increment`/`decrement` of one counter |
| Storage.Store.CreateNotification | src/controllers/follower.controller.ts:62-68 | the in-place insert under the next id |
| Storage.Store.DestroyUnreadNotification | src/controllers/like.controller.ts:145-162 | the in-place read-gated cleanup equals `RemoveUnreadNotification` |
| Storage.Store.AddFollow | src/controllers/follower.controller.ts:16-78 | the step-by-step writes leave exactly `AddFollow`'s state, keep the counters consistent and push nothing |
| Storage.Store.AddFollowWrites | src/controllers/follower.controller.ts:16-78 | the statements of `addFollow`, in order, leave exactly the state and status `AddFollow` computes |
| Storage.Store.RemoveFollow | src/controllers/follower.controller.ts:87-147 | the same for `removeFollow` |
| Storage.Store.RemoveFollowWrites | src/controllers/follower.controller.ts:87-147 | the statements of `removeFollow`, in order, leave exactly the state and status `RemoveFollow` computes |
| Storage.Store.PutLike | src/controllers/like.controller.ts:16-88 | the same for `putLikeToMemory` |
| Storage.Store.PutLikeWrites | src/controllers/like.controller.ts:16-88 | the statements of `putLikeToMemory`, in order, leave exactly the state and status `PutLike` computes |
| Storage.Store.RemoveLike | src/controllers/like.controller.ts:97-172 | the same for `removeLikeFromMemory` |
| Storage.Store.RemoveLikeWrites | src/controllers/like.controller.ts:97-172 | the statements of `removeLikeFromMemory`, in order, leave exactly the state and status `RemoveLike` computes |
| Storage.Store.AddComment | src/controllers/comment.controller.ts:61-143 | the same for `addCommentController`; one realtime push to the owner exactly when the owner exists |
| Storage.Store.AddCommentWrites | src/controllers/comment.controller.ts:61-143 | the statements of `addCommentController`, in order, leave exactly the state and status `AddComment` computes and the realtime push to the owner |
| Storage.Store.DeleteComment | src/controllers/comment.controller.ts:152-221 | the same for `deleteCommentController` |
| Storage.Store.DeleteCommentWrites | src/controllers/comment.controller.ts:152-221 | the statements of `deleteCommentController`, in order, leave exactly the state and status `DeleteComment` computes |
| Storage.Store.UpdateComment | src/controllers/comment.controller.ts:230-276 | the same for `updateCommentController` |
| Storage.Store.ReadNotification | src/controllers/notification.controller.ts:62-90 | the same for `readNotificationController` |
| Storage.Store.ReadAll | src/controllers/notification.controller.ts:99-148 | the transaction with rollback on a failing step leaves exactly `ReadAll`'s state |
| Storage.Store.ReadAllWrites | src/controllers/notification.controller.ts:99-148 | the steps with a rollback at the failing one leave exactly `ReadAll`'s state and status |
| UploadController.Check | src/controllers/upload.controller.ts:28-92 | the validation chain: 400 exactly for a missing parameter, an unknown image type or entity, or a column the entity lacks; 404 for a missing row; passes exactly for the owner |
| UploadController.AcceptedColumns | src/controllers/upload.controller.ts:36-79 | only images/memory, wallImage/memory and wallImage/profile pass the column checks |
| UploadController.RoutedRequestsAreRejected | src/routes/upload.route.ts:18-45 | with the route's `:column` binding, `name` is empty and every request is 400 |
| UploadController.AvatarIsNeverAccepted | src/Enums/common.enum.ts:10-14 | the "avatar" image type is never accepted |
| UploadController.StripTrailingSlashes | src/controllers/upload.controller.ts:449 | the result is a prefix without a trailing slash, and only slashes were dropped |
| UploadController.LastSegment | src/controllers/upload.controller.ts:449 | the result is the suffix after the last slash |
| UploadController.BasenameOfFilePath | src/controllers/upload.controller.ts:475 | the base name of a stored upload path is the stored file name |
| UploadController.FindIndex | src/controllers/upload.controller.ts:447-450 | −1 exactly when nothing matches, otherwise the first matching position |
| UploadController.RemoveAt | src/controllers/upload.controller.ts:775-778 | one entry fewer, order of the rest kept, the multiset minus the removed entry |
| UploadController.UploadMulti | src/controllers/upload.controller.ts:22-159 | failed or empty upload → 400; a NULL or array column gets the new paths appended; any other content → 500 |
| UploadController.UploadSingle | src/controllers/upload.controller.ts:168-319 | failed or missing upload → 400; otherwise the column holds the new bare path |
| UploadController.ReplaceFile | src/controllers/upload.controller.ts:326-510 | non-array JSON → 400, non-JSON → 500, missing upload or old name → 400, no match → 404; otherwise only the first match is replaced by the new path |
| UploadController.DeleteAll | src/controllers/upload.controller.ts:517-651 | NULL or empty → 404, array → emptied, other JSON → NULL, non-JSON text → 500 |
| UploadController.DeleteSpecific | src/controllers/upload.controller.ts:659-800 | missing parameter or filename → 400; non-array → 400, non-JSON → 500, no match → 404; otherwise the first match is removed and the rest keep their order |
| UploadController.Written | src/controllers/upload.controller.ts:130-132 | the update changes exactly the one column of the one row |
| UploadController.AppendedFileIsFound | src/controllers/upload.controller.ts:754-756 | an appended upload is found by its file name at the end of the list |
| UploadController.WriteBackIsIdentity | src/controllers/upload.controller.ts:781-783 | writing a column's former value back restores the tables |
| UploadController.UploadThenDeleteRestores | src/controllers/upload.controller.ts:119-132 | uploading one file and deleting it by name restores the column |
| UploadController.ReplacedFileIsFound | src/controllers/upload.controller.ts:475-484 | after a replace, the new file is found by name no later than the replaced position |
| UploadController.SingleUploadBreaksArrayHandlers | src/controllers/upload.controller.ts:287-289 | once a bare path is stored, a multi upload and a delete-all both answer 500 |
| ImageStorage.ImageStore.constructor | src/controllers/upload.controller.ts:57-72 | the store starts with the given tables |
| ImageStorage.ImageStore.Update | src/controllers/upload.controller.ts:130-132 | the in-place update of one column of one row |
| ImageStorage.ImageStore.UploadMulti | src/controllers/upload.controller.ts:22-159 | the in-place handler returns `UploadMulti`'s status and leaves its write |
| ImageStorage.ImageStore.UploadSingle | src/controllers/upload.controller.ts:168-319 | the same for the single-file upload |
| ImageStorage.ImageStore.ReplaceFile | src/controllers/upload.controller.ts:326-510 | the same for the replace |
| ImageStorage.ImageStore.DeleteAll | src/controllers/upload.controller.ts:517-651 | the same for delete-all |
| ImageStorage.ImageStore.DeleteSpecific | src/controllers/upload.controller.ts:659-800 | the same for the specific delete |
| Authorization.FindByPk | src/middleware/isOwnerOrModerator.middleware.ts:19-38 | the lookup for each kind: a memory, profile or comment row carries its `user_id` and is missing exactly when the id is not in its table; a user row carries no owner; any other kind finds nothing |
| Authorization.IsOwnerOrModerator | src/middleware/isOwnerOrModerator.middleware.ts:8-58 | never throws; 400 exactly for a missing id or an unknown kind; 404 exactly for a missing row; passes exactly for the owner, a MODERATOR or an ADMIN |
| Authorization.AdminLookup | src/middleware/isOwnerOrAdmin.middleware.ts:27-39 | a profile is found first by its user id, otherwise by primary key; other kinds by primary key |
| Authorization.IsOwnerOrAdmin | src/middleware/isOwnerOrAdmin.middleware.ts:8-62 | never answers 404; 400 exactly for a missing id or a kind other than memory, user or profile; throws exactly for a missing row; passes exactly for the owner or an ADMIN |
| Authorization.AdminGateIsStricter | src/middleware/isOwnerOrAdmin.middleware.ts:48-58 | for memories and users, passing the admin gate implies passing the moderator gate |
| Authorization.ModeratorIsNotAdmin | src/middleware/isOwnerOrModerator.middleware.ts:45-54 | a non-owning moderator passes one gate and gets 403 from the other |
| Authorization.UserEntitiesNeedARole | src/middleware/isOwnerOrModerator.middleware.ts:24-26 | for a user entity, an authenticated caller passes only through a role |
| Authorization.ProfileIsLookedUpByUser | src/middleware/isOwnerOrAdmin.middleware.ts:27-32 | a route id that names a user with a profile passes exactly for that user (without ADMIN) |
| Authorization.AdminGateMissingRowCrashes | src/middleware/isOwnerOrAdmin.middleware.ts:39-47 | a missing memory throws under the admin gate and gets 404 under the moderator gate |
| Scenarios.FollowScenario | src/controllers/follower.controller.ts:53-70 | from any state with users 1 and 2 at zero counters, memory 10 of user 2, and no follower, like or notification rows (as in every scenario below): user 1 following user 2 moves 0→1 the followers, followings and notification counters and adds one unread notification |
| Scenarios.UnfollowScenario | src/controllers/follower.controller.ts:124-140 | unfollowing brings every counter back to 0 and removes the notification |
| Scenarios.ReadFollowScenario | src/controllers/notification.controller.ts:75-82 | reading the follow notification moves the recipient's counter 1→0 |
| Scenarios.UnfollowAfterReadGoesNegative | src/controllers/follower.controller.ts:140 | an unfollow after that read leaves the counter at −1 (counters are plain integers; the UNSIGNED column type is not modelled) |
| Scenarios.LikeScenario | src/controllers/like.controller.ts:61-82 | a like moves the like counter and the owner's counter 0→1 |
| Scenarios.ReadThenUnlikeKeepsReadNotification | src/controllers/like.controller.ts:145-165 | after a read, the unlike removes the like and the count, but keeps the read notification and leaves the owner's counter at 0 |

## Left out

- Files on disk, multer and the multipart parsing are left out. The handlers receive the uploader's outcome (failure, no file, stored names) as input, and `fs.unlink`/`existsSync` are not modelled.
- The realtime socket layer and the interactor details attached to the pushed notification are left out. `Storage.Store.pushes` records only the recipient and the notification row.
- Failures of individual database writes are left out, except the ones `readAllNotificationController` catches inside its transaction. They are unhandled rejections or 500s in the code and are outside this model.
- Concurrency is left out. Handlers run one at a time, so a duplicate follow or like from racing requests cannot be modelled.
- Request ids are modelled as naturals (`None` when the parameter is absent). Non-numeric id strings and number/string mismatches in `!==` comparisons are not modelled.
- UploadController.ColumnValue: a column holding a JSON-encoded string literal or the literal text `null` is not modelled. The dialect's own JSON serialisation of array columns is not modelled either.
- UploadController.UploadSingle, UploadController.UploadMulti and UploadController.ReplaceFile: the 500 answers after a failing `entityRecord.update`, and the cleanup of the new file, are not modelled.
- The message texts and response bodies are not modelled, only statuses and state.
- The `ModelWithImage` enum that `src/controllers/upload.controller.ts:1` imports is not defined in `src/Enums/common.enum.ts`. The model assumes it holds `MEMORY = "memory"` and `PROFILE = "profile"`, the values of `ModelTypeName`, so the handlers' switch (lines 61 and 65) accepts exactly those two kinds. Without the enum, `Object.values(ModelWithImage)` at line 47 would throw and every request past the image-type check would get 500; that is not modelled.
- The `createdAt` tie order in the feed is a modelling choice. The query leaves rows with equal timestamps unordered.
- Scenarios.UnfollowAfterReadGoesNegative: the counter columns are `INTEGER.UNSIGNED` (`src/models/user.model.ts:49-53`). On a database that enforces that type, the decrement at `src/controllers/follower.controller.ts:140` fails and the handler answers 500 after the follower row and the notifications are already gone. The model treats counters as plain integers and does not capture that failure.
- Timestamps other than `createdAt` are not modelled. For example, `comment.update` also moves the comment's `updatedAt`, so `CommentController.UpdateComment` changing only the content holds for the modelled columns only.
- UploadController.UploadMulti: `wallImage` is a `STRING` column (`src/models/memory.model.ts:35-38`, `src/models/profile.model.ts:52-55`). Sequelize's validation of a STRING attribute refuses an array value, so on that column the update at `src/controllers/upload.controller.ts:130-132` rejects and the handler answers 500 with nothing written. The model lets every accepted column hold a list, so its append (and `UploadController.AppendedFileIsFound`, `UploadController.UploadThenDeleteRestores`) describes the program only for the `images` column. The same holds for the list-writing branches of `UploadController.ReplaceFile`, `UploadController.DeleteAll` and `UploadController.DeleteSpecific`.
