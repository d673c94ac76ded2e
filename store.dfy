/** The database as mutable tables, and the interaction handlers as methods
    that perform the controllers' writes one statement at a time, in the
    controllers' order. Each handler is proved to leave exactly the state its
    pure specification computes, and so keeps the counters consistent. */
module Storage {
  import opened Schema
  import FollowerController
  import LikeController
  import CommentController
  import NotificationController

  class Store {
    var users: map<Id, UserRow>
    var memories: map<Id, MemoryRow>
    var follows: set<Follow>
    var likes: map<Id, LikeRow>
    var comments: map<Id, CommentRow>
    var notifications: map<Id, NotificationRow>
    var nextLike: Id
    var nextComment: Id
    var nextNotification: Id
    /** Realtime notifications emitted, in order: recipient and payload. */
    var pushes: seq<(Id, NotificationRow)>

    /** The tables as one database value. */
    function State(): Db
      reads this
    {
      Db(users, memories, follows, likes, comments, notifications, nextLike, nextComment, nextNotification)
    }

    constructor (db: Db)
      ensures State() == db && pushes == []
    {
      users := db.users;
      memories := db.memories;
      follows := db.follows;
      likes := db.likes;
      comments := db.comments;
      notifications := db.notifications;
      nextLike := db.nextLike;
      nextComment := db.nextComment;
      nextNotification := db.nextNotification;
      pushes := [];
    }

    /** Puts every table back to `db` (a transaction rollback). */
    method Restore(db: Db)
      modifies this
      ensures State() == db && pushes == old(pushes)
    {
      users := db.users;
      memories := db.memories;
      follows := db.follows;
      likes := db.likes;
      comments := db.comments;
      notifications := db.notifications;
      nextLike := db.nextLike;
      nextComment := db.nextComment;
      nextNotification := db.nextNotification;
    }

    /** `User.increment(c, { where: { id } })`, or `decrement` for a negative delta. */
    method BumpUser(id: Id, c: UserCounter, delta: int)
      modifies this
      ensures State() == old(State()).(users := Bump(old(users), id, c, delta))
      ensures pushes == old(pushes)
    {
      if id in users {
        users := users[id := users[id].Add(c, delta)];
      }
    }

    /** `Notification.create`: stores `n` under the next notification id. */
    method CreateNotification(n: NotificationRow) returns (id: Id)
      modifies this
      ensures id == old(nextNotification)
      ensures State() == old(State()).(notifications := old(notifications)[id := n], nextNotification := id + 1)
      ensures pushes == old(pushes)
    {
      id := nextNotification;
      notifications := notifications[id := n];
      nextNotification := nextNotification + 1;
    }

    /** The read-gated cleanup: `Notification.findOne` of an unread
        notification, its `destroy`, and the owner's counter decremented only
        when positive. */
    method DestroyUnreadNotification(owner: Id, interactor: Id, kind: NotificationType, t: Time)
      modifies this
      ensures State() == RemoveUnreadNotification(old(State()), owner, interactor, kind, t)
      ensures pushes == old(pushes)
    {
      var found := UnreadMatches(notifications, owner, interactor, kind, t);
      if found != {} {
        var n := MinKey(found);
        notifications := notifications - {n};
        if owner in users && users[owner].notificationCounter > 0 {
          BumpUser(owner, NotificationCounter, -1);
        }
      }
    }

    /** `addFollow`. */
    method AddFollow(caller: Id, followedParam: Option<Id>, now: Time) returns (status: int)
      modifies this
      ensures var r := FollowerController.AddFollow(old(State()), caller, followedParam, now);
              status == r.status && State() == r.db
      ensures Consistent(old(State())) ==> Consistent(State())
      ensures pushes == old(pushes)
    {
      ghost var db := State();
      status := AddFollowWrites(caller, followedParam, now);
      if Consistent(db) {
        FollowerController.AddFollowKeepsCountersConsistent(db, caller, followedParam, now);
      }
    }

    /** The writes of `addFollow`, in the handler's order. */
    method AddFollowWrites(caller: Id, followedParam: Option<Id>, now: Time) returns (status: int)
      modifies this
      ensures var r := FollowerController.AddFollow(old(State()), caller, followedParam, now);
              status == r.status && State() == r.db
      ensures pushes == old(pushes)
    {
      if followedParam.None? {
        return BadRequest;
      }
      var followed := followedParam.value;
      if followed !in users {
        return NotFound;
      }
      if Follow(caller, followed) in follows {
        return BadRequest;
      }
      follows := follows + {Follow(caller, followed)};
      BumpUser(followed, FollowersCounter, 1);
      BumpUser(caller, FollowingsCounter, 1);
      var _ := CreateNotification(FollowerController.FollowNotification(followed, caller, now));
      BumpUser(followed, NotificationCounter, 1);
      status := Created;
    }

    /** `removeFollow`. */
    method RemoveFollow(caller: Id, followedParam: Option<Id>) returns (status: int)
      modifies this
      ensures var r := FollowerController.RemoveFollow(old(State()), caller, followedParam);
              status == r.status && State() == r.db
      ensures Consistent(old(State())) ==> Consistent(State())
      ensures pushes == old(pushes)
    {
      ghost var db := State();
      status := RemoveFollowWrites(caller, followedParam);
      if Consistent(db) {
        FollowerController.RemoveFollowKeepsCountersConsistent(db, caller, followedParam);
      }
    }

    /** The writes of `removeFollow`, in the handler's order. */
    method RemoveFollowWrites(caller: Id, followedParam: Option<Id>) returns (status: int)
      modifies this
      ensures var r := FollowerController.RemoveFollow(old(State()), caller, followedParam);
              status == r.status && State() == r.db
      ensures pushes == old(pushes)
    {
      if followedParam.None? {
        return BadRequest;
      }
      var followed := followedParam.value;
      if followed !in users {
        return NotFound;
      }
      if Follow(caller, followed) !in follows {
        return BadRequest;
      }
      follows := follows - {Follow(caller, followed)};
      BumpUser(followed, FollowersCounter, -1);
      BumpUser(caller, FollowingsCounter, -1);
      notifications := FollowerController.WithoutFollowNotifications(notifications, followed, caller);
      BumpUser(followed, NotificationCounter, -1);
      status := Ok;
    }

    /** `putLikeToMemory`. */
    method PutLike(caller: Id, memoryParam: Option<Id>, now: Time) returns (status: int)
      modifies this
      ensures var r := LikeController.PutLike(old(State()), caller, memoryParam, now);
              status == r.status && State() == r.db
      ensures Consistent(old(State())) ==> Consistent(State())
      ensures pushes == old(pushes)
    {
      ghost var db := State();
      status := PutLikeWrites(caller, memoryParam, now);
      if Consistent(db) {
        LikeController.PutLikeKeepsCountersConsistent(db, caller, memoryParam, now);
      }
    }

    /** The writes of `putLikeToMemory`, in the handler's order. */
    method PutLikeWrites(caller: Id, memoryParam: Option<Id>, now: Time) returns (status: int)
      modifies this
      ensures var r := LikeController.PutLike(old(State()), caller, memoryParam, now);
              status == r.status && State() == r.db
      ensures pushes == old(pushes)
    {
      if memoryParam.None? {
        return BadRequest;
      }
      var m := memoryParam.value;
      if m !in memories {
        return NotFound;
      }
      if LikeController.LikesBy(likes, caller, m) != {} {
        return BadRequest;
      }
      var memory := memories[m];
      var likeId := nextLike;
      likes := likes[likeId := LikeRow(caller, m, now)];
      nextLike := nextLike + 1;
      memories := memories[m := memory.(likeCounter := memory.likeCounter + 1)];
      var _ := CreateNotification(LikeController.LikeNotification(memory.owner, caller, likeId, now));
      if memory.owner in users {
        BumpUser(memory.owner, NotificationCounter, 1);
      }
      status := Created;
    }

    /** `removeLikeFromMemory`. */
    method RemoveLike(caller: Id, memoryParam: Option<Id>) returns (status: int)
      modifies this
      ensures var r := LikeController.RemoveLike(old(State()), caller, memoryParam);
              status == r.status && State() == r.db
      ensures Consistent(old(State())) ==> Consistent(State())
      ensures pushes == old(pushes)
    {
      ghost var db := State();
      status := RemoveLikeWrites(caller, memoryParam);
      if Consistent(db) {
        LikeController.RemoveLikeKeepsCountersConsistent(db, caller, memoryParam);
      }
    }

    /** The writes of `removeLikeFromMemory`, in the handler's order. */
    method RemoveLikeWrites(caller: Id, memoryParam: Option<Id>) returns (status: int)
      modifies this
      ensures var r := LikeController.RemoveLike(old(State()), caller, memoryParam);
              status == r.status && State() == r.db
      ensures pushes == old(pushes)
    {
      if memoryParam.None? {
        return BadRequest;
      }
      var m := memoryParam.value;
      if m !in memories {
        return NotFound;
      }
      var mine := LikeController.LikesBy(likes, caller, m);
      if mine == {} {
        return BadRequest;
      }
      var memory := memories[m];
      var k := MinKey(mine);
      var like := likes[k];
      likes := likes - {k};
      ghost var db1 := State();
      DestroyUnreadNotification(memory.owner, caller, Like, like.createdAt);
      ghost var db2 := State();
      assert db2 == RemoveUnreadNotification(db1, memory.owner, caller, Like, like.createdAt);
      memories := memories[m := memory.(likeCounter := memory.likeCounter - 1)];
      assert State() == db2.(memories := db2.memories[m := memory.(likeCounter := memory.likeCounter - 1)]);
      status := Ok;
    }

    /** `addCommentController`, which also emits the new notification on the
        owner's realtime channel when the owner's user row exists. */
    method AddComment(caller: Id, memoryParam: Option<Id>, content: string, now: Time) returns (status: int)
      modifies this
      ensures var r := CommentController.AddComment(old(State()), caller, memoryParam, content, now);
              status == r.status && State() == r.db
      ensures Consistent(old(State())) ==> Consistent(State())
      ensures status == Created && old(memories)[memoryParam.value].owner in old(users) ==>
                var owner := old(memories)[memoryParam.value].owner;
                pushes == old(pushes) + [(owner, CommentController.CommentNotification(owner, caller, old(nextComment), now))]
      ensures !(status == Created && old(memories)[memoryParam.value].owner in old(users)) ==> pushes == old(pushes)
    {
      ghost var db := State();
      status := AddCommentWrites(caller, memoryParam, content, now);
      if Consistent(db) {
        CommentController.AddCommentKeepsCountersConsistent(db, caller, memoryParam, content, now);
      }
    }

    /** The writes of `addCommentController`, in the handler's order. */
    method AddCommentWrites(caller: Id, memoryParam: Option<Id>, content: string, now: Time) returns (status: int)
      modifies this
      ensures var r := CommentController.AddComment(old(State()), caller, memoryParam, content, now);
              status == r.status && State() == r.db
      ensures status == Created && old(memories)[memoryParam.value].owner in old(users) ==>
                var owner := old(memories)[memoryParam.value].owner;
                pushes == old(pushes) + [(owner, CommentController.CommentNotification(owner, caller, old(nextComment), now))]
      ensures !(status == Created && old(memories)[memoryParam.value].owner in old(users)) ==> pushes == old(pushes)
    {
      if memoryParam.None? {
        return BadRequest;
      }
      var m := memoryParam.value;
      if content == "" {
        return BadRequest;
      }
      if m !in memories {
        return NotFound;
      }
      var memory := memories[m];
      var commentId := nextComment;
      comments := comments[commentId := CommentRow(caller, m, content, now)];
      nextComment := nextComment + 1;
      memories := memories[m := memory.(commentCounter := memory.commentCounter + 1)];
      var notification := CommentController.CommentNotification(memory.owner, caller, commentId, now);
      var _ := CreateNotification(notification);
      if memory.owner in users {
        BumpUser(memory.owner, NotificationCounter, 1);
        pushes := pushes + [(memory.owner, notification)];
      }
      status := Created;
    }

    /** `deleteCommentController`. */
    method DeleteComment(caller: Id, commentParam: Option<Id>) returns (status: int)
      modifies this
      ensures var r := CommentController.DeleteComment(old(State()), caller, commentParam);
              status == r.status && State() == r.db
      ensures Consistent(old(State())) ==> Consistent(State())
      ensures pushes == old(pushes)
    {
      ghost var db := State();
      status := DeleteCommentWrites(caller, commentParam);
      if Consistent(db) {
        CommentController.DeleteCommentKeepsCountersConsistent(db, caller, commentParam);
      }
    }

    /** The writes of `deleteCommentController`, in its order. */
    method DeleteCommentWrites(caller: Id, commentParam: Option<Id>) returns (status: int)
      modifies this
      ensures var r := CommentController.DeleteComment(old(State()), caller, commentParam);
              status == r.status && State() == r.db
      ensures pushes == old(pushes)
    {
      if commentParam.None? {
        return BadRequest;
      }
      var c := commentParam.value;
      if c !in comments {
        return NotFound;
      }
      var comment := comments[c];
      if comment.memory !in memories {
        return NotFound;
      }
      var memory := memories[comment.memory];
      memories := memories[comment.memory := memory.(commentCounter := memory.commentCounter - 1)];
      ghost var db1 := State();
      DestroyUnreadNotification(memory.owner, caller, Comment, comment.createdAt);
      ghost var db2 := State();
      assert db2 == RemoveUnreadNotification(db1, memory.owner, caller, Comment, comment.createdAt);
      comments := comments - {c};
      assert State() == db2.(comments := db2.comments - {c});
      status := Ok;
    }

    /** `updateCommentController`. */
    method UpdateComment(commentParam: Option<Id>, content: string) returns (status: int)
      modifies this
      ensures var r := CommentController.UpdateComment(old(State()), commentParam, content);
              status == r.status && State() == r.db
      ensures Consistent(old(State())) ==> Consistent(State())
      ensures pushes == old(pushes)
    {
      ghost var db := State();
      if Consistent(db) {
        CommentController.UpdateCommentKeepsCountersConsistent(db, commentParam, content);
      }
      if commentParam.None? {
        return BadRequest;
      }
      var c := commentParam.value;
      if content == "" {
        return BadRequest;
      }
      if c !in comments {
        return NotFound;
      }
      comments := comments[c := comments[c].(content := content)];
      status := Ok;
    }

    /** `readNotificationController`. */
    method ReadNotification(caller: Id, notificationParam: Option<Id>) returns (status: int)
      modifies this
      ensures var r := NotificationController.ReadNotification(old(State()), caller, notificationParam);
              status == r.status && State() == r.db
      ensures Consistent(old(State())) ==> Consistent(State())
      ensures pushes == old(pushes)
    {
      ghost var db := State();
      if Consistent(db) {
        NotificationController.ReadsKeepCountersConsistent(db, caller, notificationParam, NotificationController.NoFault);
      }
      if notificationParam.None? || notificationParam.value !in notifications {
        return NotFound;
      }
      var k := notificationParam.value;
      var n := notifications[k].(isRead := true);
      if caller in users && users[caller].notificationCounter > 0 {
        BumpUser(caller, NotificationCounter, -1);
      }
      notifications := notifications[k := n];
      status := Ok;
    }

    /** `readAllNotificationController`: the steps run inside a transaction;
        `fault` names the step the storage layer fails, if any, and a failure
        rolls every table back to the snapshot taken at the start. */
    method ReadAll(caller: Id, fault: NotificationController.Fault) returns (status: int)
      modifies this
      ensures var r := NotificationController.ReadAll(old(State()), caller, fault);
              status == r.status && State() == r.db
      ensures Consistent(old(State())) ==> Consistent(State())
      ensures pushes == old(pushes)
    {
      ghost var db := State();
      status := ReadAllWrites(caller, fault);
      if Consistent(db) {
        NotificationController.ReadsKeepCountersConsistent(db, caller, None, fault);
      }
    }

    /** The steps of `readAllNotificationController`, with the rollback on a failed step. */
    method ReadAllWrites(caller: Id, fault: NotificationController.Fault) returns (status: int)
      modifies this
      ensures var r := NotificationController.ReadAll(old(State()), caller, fault);
              status == r.status && State() == r.db
      ensures pushes == old(pushes)
    {
      var snapshot := State();
      if fault == NotificationController.FailAt(NotificationController.FindUnread) {
        Restore(snapshot);
        return ServerError;
      }
      var unreadCount := |UnreadOf(notifications, caller)|;
      if fault == NotificationController.FailAt(NotificationController.BulkUpdate) {
        Restore(snapshot);
        return ServerError;
      }
      notifications := NotificationController.MarkAllRead(notifications, caller);
      if fault == NotificationController.FailAt(NotificationController.FindUser) {
        Restore(snapshot);
        return ServerError;
      }
      if caller in users && users[caller].notificationCounter > 0 {
        var c := users[caller].notificationCounter;
        var row := users[caller].(notificationCounter := if c - unreadCount > 0 then c - unreadCount else 0);
        if fault == NotificationController.FailAt(NotificationController.SaveUser) {
          Restore(snapshot);
          return ServerError;
        }
        users := users[caller := row];
      }
      if fault == NotificationController.FailAt(NotificationController.Commit) {
        Restore(snapshot);
        return ServerError;
      }
      status := Ok;
    }
  }
}
