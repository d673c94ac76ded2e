/** Request sequences over a database that starts with two users and one
    memory, following the handlers' specifications step by step. Each step
    lemma reads one handler's effect off its specification predicate; each
    scenario lemma chains the handlers themselves. */
module Scenarios {
  import opened Schema
  import FollowerController
  import LikeController
  import NotificationController

  /** Users 1 and 2 with zero counters, memory 10 of user 2 with zero
      counters, and no follower, like or notification rows. Other users,
      memories, the comment table and the auto-increment counters may hold
      anything. */
  predicate Fresh(db: Db) {
    && 1 in db.users && db.users[1] == UserRow(0, 0, 0)
    && 2 in db.users && db.users[2] == UserRow(0, 0, 0)
    && 10 in db.memories && db.memories[10] == MemoryRow(2, 0, 0)
    && db.follows == {}
    && db.likes == map[]
    && db.notifications == map[]
  }

  lemma FollowAddedRows(db: Db, db': Db, t: Time)
    requires Fresh(db)
    requires FollowerController.FollowAdded(db, db', 1, 2, t)
    ensures db'.users[1] == UserRow(0, 0, 1) && db'.users[2] == UserRow(1, 1, 0)
    ensures db'.follows == {Follow(1, 2)}
    ensures db'.notifications == map[db.nextNotification := NotificationRow(2, 1, NewFollower, None, false, t)]
    ensures UnreadOf(db'.notifications, 2) == {db.nextNotification}
  {
    FollowerController.SameCountersSameRow(db'.users[1], UserRow(0, 0, 1));
    FollowerController.SameCountersSameRow(db'.users[2], UserRow(1, 1, 0));
  }

  /** Unfollowing takes every follow counter down by one, and user 2's
      notification counter from `n` to `n - 1`, whatever `n` is. */
  lemma FollowRemovedRows(db: Db, db': Db, n: int)
    requires 1 in db.users && db.users[1] == UserRow(0, 0, 1)
    requires 2 in db.users && db.users[2] == UserRow(n, 1, 0)
    requires db.follows == {Follow(1, 2)}
    requires forall k :: k in db.notifications ==> FollowerController.IsFollowNotification(db.notifications[k], 2, 1)
    requires FollowerController.FollowRemoved(db, db', 1, 2)
    ensures db'.users[1] == UserRow(0, 0, 0) && db'.users[2] == UserRow(n - 1, 0, 0)
    ensures db'.follows == {}
    ensures db'.notifications == map[]
  {
    FollowerController.SameCountersSameRow(db'.users[1], UserRow(0, 0, 0));
    FollowerController.SameCountersSameRow(db'.users[2], UserRow(n - 1, 0, 0));
  }

  /** User 2 reads `row`, the only notification, while its counter `n` is
      positive. */
  lemma MarkedReadRows(db: Db, db': Db, k: Id, row: NotificationRow, n: int, f: int, g: int)
    requires 1 in db.users && 2 in db.users && db.users[2] == UserRow(n, f, g) && n > 0
    requires db.notifications == map[k := row] && row.recipient == 2
    requires NotificationController.MarkedRead(db, db', 2, k)
    ensures db'.users[1] == db.users[1] && db'.users[2] == UserRow(n - 1, f, g)
    ensures db'.notifications == map[k := row.(isRead := true)]
    ensures UnreadOf(db'.notifications, 2) == {}
    ensures db'.follows == db.follows && db'.likes == db.likes && db'.memories == db.memories
    ensures db'.nextLike == db.nextLike && db'.nextNotification == db.nextNotification
  {
    FollowerController.SameCountersSameRow(db'.users[1], db.users[1]);
    FollowerController.SameCountersSameRow(db'.users[2], UserRow(n - 1, f, g));
    assert db'.notifications == map[k := row.(isRead := true)];
  }

  lemma LikeAddedRows(db: Db, db': Db, t: Time)
    requires Fresh(db)
    requires LikeController.LikeAdded(db, db', 1, 10, t)
    ensures db'.likes == map[db.nextLike := LikeRow(1, 10, t)]
    ensures db'.memories[10] == MemoryRow(2, 1, 0)
    ensures db'.users[1] == UserRow(0, 0, 0) && db'.users[2] == UserRow(1, 0, 0)
    ensures db'.notifications == map[db.nextNotification := NotificationRow(2, 1, Like, Some(db.nextLike), false, t)]
  {
  }

  /** Taking back like `l` after its notification `k` was read: nothing
      unread matches, so only the like row and the like counter change. */
  lemma LikeRemovedRows(db: Db, db': Db, l: Id, k: Id, t: Time)
    requires db.likes == map[l := LikeRow(1, 10, t)]
    requires 10 in db.memories && db.memories[10] == MemoryRow(2, 1, 0)
    requires db.notifications == map[k := NotificationRow(2, 1, Like, Some(l), true, t)]
    requires 2 in db.users && db.users[2].notificationCounter == 0
    requires LikeController.LikeRemoved(db, db', 1, 10)
    ensures db'.likes == map[] && db'.memories[10].likeCounter == 0
    ensures db'.notifications == db.notifications
    ensures db'.users[2].notificationCounter == 0
  {
    assert LikeController.LikesBy(db.likes, 1, 10) == {l};
    assert UnreadMatches(db.notifications, 2, 1, Like, t) == {};
  }

  /** `removeFollow` from a state where user 1 follows user 2 and every
      notification is a NEW_FOLLOWER one from 1 to 2. */
  lemma UnfollowFrom(db: Db, n: int)
    requires 1 in db.users && db.users[1] == UserRow(0, 0, 1)
    requires 2 in db.users && db.users[2] == UserRow(n, 1, 0)
    requires db.follows == {Follow(1, 2)}
    requires forall k :: k in db.notifications ==> FollowerController.IsFollowNotification(db.notifications[k], 2, 1)
    ensures var b := FollowerController.RemoveFollow(db, 1, Some(2));
            && b.status == Ok
            && b.db.users[1] == UserRow(0, 0, 0) && b.db.users[2] == UserRow(n - 1, 0, 0)
            && b.db.follows == {}
            && b.db.notifications == map[]
  {
    var b := FollowerController.RemoveFollow(db, 1, Some(2));
    FollowRemovedRows(db, b.db, n);
  }

  /** `readNotificationController` by user 2 on `row`, the only
      notification, while its counter `n` is positive. */
  lemma ReadFrom(db: Db, k: Id, row: NotificationRow, n: int, f: int, g: int)
    requires 1 in db.users && 2 in db.users && db.users[2] == UserRow(n, f, g) && n > 0
    requires db.notifications == map[k := row] && row.recipient == 2
    ensures var r := NotificationController.ReadNotification(db, 2, Some(k));
            && r.status == Ok
            && r.db.users[1] == db.users[1] && r.db.users[2] == UserRow(n - 1, f, g)
            && r.db.notifications == map[k := row.(isRead := true)]
            && UnreadOf(r.db.notifications, 2) == {}
            && r.db.follows == db.follows && r.db.likes == db.likes && r.db.memories == db.memories
            && r.db.nextLike == db.nextLike && r.db.nextNotification == db.nextNotification
  {
    var r := NotificationController.ReadNotification(db, 2, Some(k));
    MarkedReadRows(db, r.db, k, row, n, f, g);
  }

  /** `removeLikeFromMemory` of like `l` after its notification `k` was read. */
  lemma UnlikeAfterReadFrom(db: Db, l: Id, k: Id, t: Time)
    requires db.likes == map[l := LikeRow(1, 10, t)]
    requires 10 in db.memories && db.memories[10] == MemoryRow(2, 1, 0)
    requires db.notifications == map[k := NotificationRow(2, 1, Like, Some(l), true, t)]
    requires 2 in db.users && db.users[2].notificationCounter == 0
    ensures var b := LikeController.RemoveLike(db, 1, Some(10));
            && b.status == Ok
            && b.db.likes == map[] && b.db.memories[10].likeCounter == 0
            && b.db.notifications == db.notifications
            && b.db.users[2].notificationCounter == 0
  {
    assert LikeController.LikesBy(db.likes, 1, 10) == {l};
    var b := LikeController.RemoveLike(db, 1, Some(10));
    LikeRemovedRows(db, b.db, l, k, t);
  }

  /** User 1 follows user 2: one follower, one following, one unread
      notification counted for user 2. */
  lemma FollowScenario(db: Db, t: Time)
    requires Fresh(db)
    ensures var a := FollowerController.AddFollow(db, 1, Some(2), t);
            && a.status == Created
            && a.db.users[1] == UserRow(0, 0, 1) && a.db.users[2] == UserRow(1, 1, 0)
            && a.db.follows == {Follow(1, 2)}
            && a.db.notifications == map[db.nextNotification := NotificationRow(2, 1, NewFollower, None, false, t)]
            && UnreadOf(a.db.notifications, 2) == {db.nextNotification}
  {
    var a := FollowerController.AddFollow(db, 1, Some(2), t);
    FollowAddedRows(db, a.db, t);
  }

  /** User 1 then unfollows user 2: every counter is back at zero and the
      notification row is gone, although it was never read. */
  lemma UnfollowScenario(db: Db, t: Time)
    requires Fresh(db)
    ensures var a := FollowerController.AddFollow(db, 1, Some(2), t);
            var b := FollowerController.RemoveFollow(a.db, 1, Some(2));
            && b.status == Ok
            && b.db.users[1] == UserRow(0, 0, 0) && b.db.users[2] == UserRow(0, 0, 0)
            && b.db.follows == {}
            && b.db.notifications == map[]
  {
    FollowScenario(db, t);
    var a := FollowerController.AddFollow(db, 1, Some(2), t);
    UnfollowFrom(a.db, 1);
  }

  /** User 2 reads the follow notification: its counter drops to zero and
      nothing unread is left for it. */
  lemma ReadFollowScenario(db: Db, t: Time)
    requires Fresh(db)
    ensures var a := FollowerController.AddFollow(db, 1, Some(2), t);
            var r := NotificationController.ReadNotification(a.db, 2, Some(db.nextNotification));
            && r.status == Ok
            && r.db.users[1] == UserRow(0, 0, 1) && r.db.users[2] == UserRow(0, 1, 0)
            && r.db.follows == {Follow(1, 2)}
            && r.db.notifications == map[db.nextNotification := NotificationRow(2, 1, NewFollower, None, true, t)]
            && UnreadOf(r.db.notifications, 2) == {}
  {
    FollowScenario(db, t);
    var a := FollowerController.AddFollow(db, 1, Some(2), t);
    ReadFrom(a.db, db.nextNotification, NotificationRow(2, 1, NewFollower, None, false, t), 1, 1, 0);
  }

  /** When user 1 unfollows after the notification was read, the
      unconditional decrement takes user 2's notification counter from 0 to
      -1, and the read notification is deleted all the same. Counters are
      plain integers here: a database enforcing the column's UNSIGNED type
      would refuse that decrement instead. */
  lemma UnfollowAfterReadGoesNegative(db: Db, t: Time)
    requires Fresh(db)
    ensures var a := FollowerController.AddFollow(db, 1, Some(2), t);
            var r := NotificationController.ReadNotification(a.db, 2, Some(db.nextNotification));
            var b := FollowerController.RemoveFollow(r.db, 1, Some(2));
            && b.status == Ok
            && b.db.users[1] == UserRow(0, 0, 0) && b.db.users[2] == UserRow(-1, 0, 0)
            && b.db.follows == {}
            && b.db.notifications == map[]
  {
    ReadFollowScenario(db, t);
    var a := FollowerController.AddFollow(db, 1, Some(2), t);
    var r := NotificationController.ReadNotification(a.db, 2, Some(db.nextNotification));
    UnfollowFrom(r.db, 0);
  }

  /** User 1 likes memory 10 of user 2: the like counter and user 2's
      notification counter go from 0 to 1, and the notification points at
      the new like. */
  lemma LikeScenario(db: Db, t: Time)
    requires Fresh(db)
    ensures var a := LikeController.PutLike(db, 1, Some(10), t);
            && a.status == Created
            && a.db.likes == map[db.nextLike := LikeRow(1, 10, t)]
            && a.db.memories[10] == MemoryRow(2, 1, 0)
            && a.db.users[1] == UserRow(0, 0, 0) && a.db.users[2] == UserRow(1, 0, 0)
            && a.db.notifications == map[db.nextNotification := NotificationRow(2, 1, Like, Some(db.nextLike), false, t)]
  {
    assert LikeController.LikesBy(db.likes, 1, 10) == {};
    var a := LikeController.PutLike(db, 1, Some(10), t);
    LikeAddedRows(db, a.db, t);
  }

  /** User 2 reads the like notification, then user 1 takes the like back:
      the like row is gone and the like counter is 0, but the read
      notification stays and user 2's counter stays at 0. */
  lemma ReadThenUnlikeKeepsReadNotification(db: Db, t: Time)
    requires Fresh(db)
    ensures var a := LikeController.PutLike(db, 1, Some(10), t);
            var r := NotificationController.ReadNotification(a.db, 2, Some(db.nextNotification));
            var b := LikeController.RemoveLike(r.db, 1, Some(10));
            && r.status == Ok && r.db.users[2].notificationCounter == 0
            && b.status == Ok
            && b.db.likes == map[] && b.db.memories[10].likeCounter == 0
            && b.db.notifications == map[db.nextNotification := NotificationRow(2, 1, Like, Some(db.nextLike), true, t)]
            && b.db.users[2].notificationCounter == 0
  {
    LikeScenario(db, t);
    var a := LikeController.PutLike(db, 1, Some(10), t);
    ReadFrom(a.db, db.nextNotification, NotificationRow(2, 1, Like, Some(db.nextLike), false, t), 1, 0, 0);
    var r := NotificationController.ReadNotification(a.db, 2, Some(db.nextNotification));
    UnlikeAfterReadFrom(r.db, db.nextLike, db.nextNotification, t);
  }
}
