/** `putLikeToMemory` and `removeLikeFromMemory` as functions from one database
    state to the next: the like counter moves in lockstep with the like rows,
    and the LIKE notification is cleaned up only while it is still unread. */
module LikeController {
  import opened Schema

  /** Ids of the likes `user` has put on memory `m`. */
  function LikesBy(likes: map<Id, LikeRow>, user: Id, m: Id): set<Id> {
    set k | k in likes && likes[k].user == user && likes[k].memory == m
  }

  /** The like notification `putLikeToMemory` creates for the memory's owner. */
  function LikeNotification(owner: Id, liker: Id, likeId: Id, t: Time): NotificationRow {
    NotificationRow(owner, liker, Like, Some(likeId), false, t)
  }

  /** The state a successful `putLikeToMemory` leaves: one new like row with
      the next like id, the memory's like counter one higher, one unread LIKE
      notification to the owner pointing at the new like and carrying its
      `createdAt`, and the owner's notification counter one higher if the
      owner's user row exists. */
  ghost predicate LikeAdded(db: Db, db': Db, caller: Id, m: Id, now: Time) {
    && m in db.memories
    && var owner := db.memories[m].owner;
    && db'.likes == db.likes[db.nextLike := LikeRow(caller, m, now)]
    && db'.nextLike == db.nextLike + 1
    && db'.memories == db.memories[m := db.memories[m].(likeCounter := db.memories[m].likeCounter + 1)]
    && db'.notifications == db.notifications[db.nextNotification := LikeNotification(owner, caller, db.nextLike, now)]
    && db'.nextNotification == db.nextNotification + 1
    && db'.users == Bump(db.users, owner, NotificationCounter, 1)
    && db'.follows == db.follows && db'.comments == db.comments && db'.nextComment == db.nextComment
  }

  /** `putLikeToMemory`: the caller likes the memory named by the route parameter. */
  function PutLike(db: Db, caller: Id, memoryParam: Option<Id>, now: Time): (r: Outcome)
    ensures memoryParam.None? ==> r == Outcome(BadRequest, db)
    ensures memoryParam.Some? && memoryParam.value !in db.memories ==> r == Outcome(NotFound, db)
    ensures (memoryParam.Some? && memoryParam.value in db.memories && LikesBy(db.likes, caller, memoryParam.value) != {})
              ==> r == Outcome(BadRequest, db)
    ensures r.status == Created <==>
              memoryParam.Some? && memoryParam.value in db.memories && LikesBy(db.likes, caller, memoryParam.value) == {}
    ensures r.status == Created ==> LikeAdded(db, r.db, caller, memoryParam.value, now)
    ensures r.status == Created && memoryParam.value in db.memories && db.memories[memoryParam.value].owner in db.users ==>
              var owner := db.memories[memoryParam.value].owner;
              r.db.users[owner].notificationCounter == db.users[owner].notificationCounter + 1
  {
    match memoryParam
    case None => Outcome(BadRequest, db)
    case Some(m) =>
      if m !in db.memories then Outcome(NotFound, db)
      else if LikesBy(db.likes, caller, m) != {} then Outcome(BadRequest, db)
      else
        var memory := db.memories[m];
        var likeId := db.nextLike;
        Outcome(Created, db.(
          likes := db.likes[likeId := LikeRow(caller, m, now)],
          nextLike := likeId + 1,
          memories := db.memories[m := memory.(likeCounter := memory.likeCounter + 1)],
          notifications := db.notifications[db.nextNotification := LikeNotification(memory.owner, caller, likeId, now)],
          nextNotification := db.nextNotification + 1,
          users := Bump(db.users, memory.owner, NotificationCounter, 1)))
  }

  /** The state a successful `removeLikeFromMemory` leaves: the caller's like
      of `m` with the smallest id gone, the memory's like counter one lower,
      and the unread LIKE notification with that like's `createdAt` cleaned
      up as `RemoveUnreadNotification` describes. */
  ghost predicate LikeRemoved(db: Db, db': Db, caller: Id, m: Id) {
    && m in db.memories && LikesBy(db.likes, caller, m) != {}
    && var k := MinKey(LikesBy(db.likes, caller, m));
    && db'.likes == db.likes - {k}
    && db'.memories == db.memories[m := db.memories[m].(likeCounter := db.memories[m].likeCounter - 1)]
    && var cleaned := RemoveUnreadNotification(db, db.memories[m].owner, caller, Like, db.likes[k].createdAt);
    && db'.notifications == cleaned.notifications
    && db'.users == cleaned.users
    && db'.follows == db.follows && db'.comments == db.comments
    && db'.nextLike == db.nextLike && db'.nextComment == db.nextComment
    && db'.nextNotification == db.nextNotification
  }

  /** `removeLikeFromMemory`: the caller takes back its like of the memory
      named by the route parameter. The like row found first is destroyed, the
      unread LIKE notification with the like's `createdAt` is cleaned up if
      there is one, and the like counter is decremented without a floor. */
  function RemoveLike(db: Db, caller: Id, memoryParam: Option<Id>): (r: Outcome)
    ensures memoryParam.None? ==> r == Outcome(BadRequest, db)
    ensures memoryParam.Some? && memoryParam.value !in db.memories ==> r == Outcome(NotFound, db)
    ensures (memoryParam.Some? && memoryParam.value in db.memories && LikesBy(db.likes, caller, memoryParam.value) == {})
              ==> r == Outcome(BadRequest, db)
    ensures r.status == Ok <==>
              memoryParam.Some? && memoryParam.value in db.memories && LikesBy(db.likes, caller, memoryParam.value) != {}
    ensures r.status == Ok ==> LikeRemoved(db, r.db, caller, memoryParam.value)
  {
    match memoryParam
    case None => Outcome(BadRequest, db)
    case Some(m) =>
      if m !in db.memories then Outcome(NotFound, db)
      else if LikesBy(db.likes, caller, m) == {} then Outcome(BadRequest, db)
      else
        var memory := db.memories[m];
        var k := MinKey(LikesBy(db.likes, caller, m));
        var like := db.likes[k];
        var db1 := db.(likes := db.likes - {k});
        var db2 := RemoveUnreadNotification(db1, memory.owner, caller, Like, like.createdAt);
        Outcome(Ok, db2.(memories := db2.memories[m := memory.(likeCounter := memory.likeCounter - 1)]))
  }

  /** Likes on a memory after one like row is added under a fresh id. */
  lemma LikesOnAfterInsert(likes: map<Id, LikeRow>, k: Id, like: LikeRow, m: Id)
    requires k !in likes
    ensures |LikesOn(likes[k := like], m)| == |LikesOn(likes, m)| + (if like.memory == m then 1 else 0)
  {
    if like.memory == m {
      assert LikesOn(likes[k := like], m) == LikesOn(likes, m) + {k};
    } else {
      assert LikesOn(likes[k := like], m) == LikesOn(likes, m);
    }
  }

  /** Likes on a memory after one like row is deleted. */
  lemma LikesOnAfterDelete(likes: map<Id, LikeRow>, k: Id, m: Id)
    requires k in likes
    ensures |LikesOn(likes - {k}, m)| == |LikesOn(likes, m)| - (if likes[k].memory == m then 1 else 0)
  {
    var rest := likes - {k};
    LikesOnAfterInsert(rest, k, likes[k], m);
    assert rest[k := likes[k]] == likes;
  }

  /** Under `putLikeToMemory` every memory's like counter keeps equalling its
      number of like rows (and the other derived counters are untouched). */
  lemma PutLikeKeepsCountersConsistent(db: Db, caller: Id, memoryParam: Option<Id>, now: Time)
    requires Consistent(db)
    ensures Consistent(PutLike(db, caller, memoryParam, now).db)
  {
    var r := PutLike(db, caller, memoryParam, now);
    if r.status == Created {
      var m := memoryParam.value;
      forall x | x in r.db.memories
        ensures r.db.memories[x].likeCounter == |LikesOn(r.db.likes, x)|
      {
        LikesOnAfterInsert(db.likes, db.nextLike, LikeRow(caller, m, now), x);
      }
      forall u | u in r.db.users
        ensures r.db.users[u].followersCounter == db.users[u].followersCounter
        ensures r.db.users[u].followingsCounter == db.users[u].followingsCounter
      {
        assert r.db.users[u].Get(FollowersCounter) == db.users[u].Get(FollowersCounter);
        assert r.db.users[u].Get(FollowingsCounter) == db.users[u].Get(FollowingsCounter);
      }
    }
  }

  /** Under `removeLikeFromMemory` the derived counters stay consistent. */
  lemma RemoveLikeKeepsCountersConsistent(db: Db, caller: Id, memoryParam: Option<Id>)
    requires Consistent(db)
    ensures Consistent(RemoveLike(db, caller, memoryParam).db)
  {
    var r := RemoveLike(db, caller, memoryParam);
    if r.status == Ok {
      var m := memoryParam.value;
      var k := MinKey(LikesBy(db.likes, caller, m));
      assert k in LikesOn(db.likes, m);
      forall x | x in r.db.memories
        ensures r.db.memories[x].likeCounter == |LikesOn(r.db.likes, x)|
      {
        LikesOnAfterDelete(db.likes, k, x);
      }
      forall u | u in r.db.users
        ensures r.db.users[u].followersCounter == db.users[u].followersCounter
        ensures r.db.users[u].followingsCounter == db.users[u].followingsCounter
      {
        assert r.db.users[u].Get(FollowersCounter) == db.users[u].Get(FollowersCounter);
        assert r.db.users[u].Get(FollowingsCounter) == db.users[u].Get(FollowingsCounter);
      }
    }
  }

  /** What a like just put looks like to the removal that follows it: it is
      the only like of the pair, and the notification just created is among
      the unread matches (the only one when no older one matches). */
  lemma LikeAddedFinds(db: Db, a: Db, caller: Id, m: Id, now: Time)
    requires WellFormed(db)
    requires LikesBy(db.likes, caller, m) == {}
    requires LikeAdded(db, a, caller, m, now)
    ensures LikesBy(a.likes, caller, m) == {db.nextLike}
    ensures db.nextNotification in UnreadMatches(a.notifications, db.memories[m].owner, caller, Like, now)
    ensures UnreadMatches(db.notifications, db.memories[m].owner, caller, Like, now) == {} ==>
              UnreadMatches(a.notifications, db.memories[m].owner, caller, Like, now) == {db.nextNotification}
  {
    assert LikesBy(a.likes, caller, m) == {db.nextLike};
  }

  /** The owner's counter goes up by one and comes back down, so the user rows
      are restored (given the counter was not negative). */
  lemma LikeUnlikeUsers(db: Db, a: Db, b: Db, caller: Id, m: Id, now: Time)
    requires WellFormed(db)
    requires LikesBy(db.likes, caller, m) == {}
    requires LikeAdded(db, a, caller, m, now)
    requires db.memories[m].owner in db.users ==> db.users[db.memories[m].owner].notificationCounter >= 0
    requires LikeRemoved(a, b, caller, m)
    ensures b.users == db.users
  {
    LikeAddedFinds(db, a, caller, m, now);
    var owner := db.memories[m].owner;
    assert MinKey(LikesBy(a.likes, caller, m)) == db.nextLike;
    assert a.likes[db.nextLike].createdAt == now;
    if owner in db.users {
      assert a.users[owner].notificationCounter > 0;
      assert b.users == Bump(a.users, owner, NotificationCounter, -1);
      BumpBack(db.users, owner, NotificationCounter);
    } else {
      assert b.users == a.users;
    }
  }

  /** The like rows after a like and its removal. */
  lemma LikeUnlikeRows(db: Db, a: Db, b: Db, caller: Id, m: Id, now: Time)
    requires WellFormed(db)
    requires LikesBy(db.likes, caller, m) == {}
    requires LikeAdded(db, a, caller, m, now)
    requires LikeRemoved(a, b, caller, m)
    ensures b.likes == db.likes
  {
    assert LikesBy(a.likes, caller, m) == {db.nextLike};
    assert db.nextLike !in db.likes;
    DeleteInserted(db.likes, db.nextLike, LikeRow(caller, m, now));
  }

  /** The memories after a like and its removal. */
  lemma LikeUnlikeMemories(db: Db, a: Db, b: Db, caller: Id, m: Id, now: Time)
    requires LikeAdded(db, a, caller, m, now)
    requires LikeRemoved(a, b, caller, m)
    ensures b.memories == db.memories
  {
    var mem := db.memories[m];
    assert b.memories == db.memories[m := mem];
  }

  /** The notification table after a like and its removal: one row fewer than
      after the like, and the old table itself when no older unread LIKE
      notification of the same pair and time exists. */
  lemma LikeUnlikeNotifications(db: Db, a: Db, b: Db, caller: Id, m: Id, now: Time)
    requires WellFormed(db)
    requires LikesBy(db.likes, caller, m) == {}
    requires LikeAdded(db, a, caller, m, now)
    requires LikeRemoved(a, b, caller, m)
    ensures |b.notifications| == |db.notifications|
    ensures UnreadMatches(db.notifications, db.memories[m].owner, caller, Like, now) == {} ==>
              b.notifications == db.notifications
  {
    LikeAddedFinds(db, a, caller, m, now);
    var owner := db.memories[m].owner;
    assert MinKey(LikesBy(a.likes, caller, m)) == db.nextLike;
    assert a.likes[db.nextLike].createdAt == now;
    var found := UnreadMatches(a.notifications, owner, caller, Like, now);
    assert b.notifications == a.notifications - {MinKey(found)};
    assert db.nextNotification !in db.notifications;
    assert |a.notifications| == |db.notifications| + 1;
    if UnreadMatches(db.notifications, owner, caller, Like, now) == {} {
      assert a.notifications - {db.nextNotification} == db.notifications;
    }
  }

  /** `putLikeToMemory` then `removeLikeFromMemory` with no read in between
      restores the like rows, the memory (its like counter) and the users (the
      owner's notification counter, provided it was not negative), and takes
      exactly one notification away again; when no older unread LIKE
      notification of the same pair and time exists, the notification table
      is restored too. */
  lemma LikeThenUnlike(db: Db, caller: Id, m: Id, now: Time)
    requires WellFormed(db)
    requires m in db.memories && LikesBy(db.likes, caller, m) == {}
    requires db.memories[m].owner in db.users ==> db.users[db.memories[m].owner].notificationCounter >= 0
    ensures var a := PutLike(db, caller, Some(m), now);
            var b := RemoveLike(a.db, caller, Some(m));
            && a.status == Created && b.status == Ok
            && b.db.likes == db.likes && b.db.memories == db.memories && b.db.users == db.users
            && |b.db.notifications| == |db.notifications|
            && (UnreadMatches(db.notifications, db.memories[m].owner, caller, Like, now) == {} ==>
                  b.db.notifications == db.notifications)
  {
    var a := PutLike(db, caller, Some(m), now);
    LikeAddedFinds(db, a.db, caller, m, now);
    var b := RemoveLike(a.db, caller, Some(m));
    LikeUnlikeUsers(db, a.db, b.db, caller, m, now);
    LikeUnlikeRows(db, a.db, b.db, caller, m, now);
    LikeUnlikeMemories(db, a.db, b.db, caller, m, now);
    LikeUnlikeNotifications(db, a.db, b.db, caller, m, now);
  }
}
