/** `addFollow` and `removeFollow` as functions from one database state to the
    next, and what they keep: the follow counters agree with the follower rows,
    and a follow undone by an unfollow leaves the counters where they were. */
module FollowerController {
  import opened Schema

  /** The notification `addFollow` creates for the followed user. */
  function FollowNotification(followed: Id, follower: Id, now: Time): NotificationRow {
    NotificationRow(followed, follower, NewFollower, None, false, now)
  }

  /** Does `n` match the where-clause of `removeFollow`'s notification destroy?
      The clause does not mention `isRead`. */
  predicate IsFollowNotification(n: NotificationRow, followed: Id, follower: Id) {
    n.recipient == followed && n.interactor == follower && n.kind == NewFollower
  }

  /** The notification table after `Notification.destroy` with that where-clause. */
  function WithoutFollowNotifications(ns: map<Id, NotificationRow>, followed: Id, follower: Id): (r: map<Id, NotificationRow>)
    ensures forall k :: k in r ==> k in ns && r[k] == ns[k] && !IsFollowNotification(ns[k], followed, follower)
    ensures forall k :: k in ns && !IsFollowNotification(ns[k], followed, follower) ==> k in r
  {
    map k | k in ns && !IsFollowNotification(ns[k], followed, follower) :: ns[k]
  }

  /** The state a successful `addFollow` leaves: one new follower row, the
      followed user's followers and notification counters and the follower's
      followings counter each one higher (all three on one row for a
      self-follow), one unread NEW_FOLLOWER notification, nothing else changed. */
  ghost predicate FollowAdded(db: Db, db': Db, caller: Id, followed: Id, now: Time) {
    && Follow(caller, followed) !in db.follows
    && db'.follows == db.follows + {Follow(caller, followed)}
    && db'.users.Keys == db.users.Keys
    && (forall u, c :: u in db.users ==>
          db'.users[u].Get(c) == db.users[u].Get(c)
            + (if u == followed && c != FollowingsCounter then 1 else 0)
            + (if u == caller && c == FollowingsCounter then 1 else 0))
    && db'.notifications == db.notifications[db.nextNotification := FollowNotification(followed, caller, now)]
    && db'.nextNotification == db.nextNotification + 1
    && db'.memories == db.memories && db'.likes == db.likes && db'.comments == db.comments
    && db'.nextLike == db.nextLike && db'.nextComment == db.nextComment
  }

  /** The state a successful `removeFollow` leaves: the pair's row gone, the
      three counters one lower without a floor, every NEW_FOLLOWER notification
      from the follower to the followed user gone whether read or not. */
  ghost predicate FollowRemoved(db: Db, db': Db, caller: Id, followed: Id) {
    && Follow(caller, followed) in db.follows
    && db'.follows == db.follows - {Follow(caller, followed)}
    && db'.users.Keys == db.users.Keys
    && (forall u, c :: u in db.users ==>
          db'.users[u].Get(c) == db.users[u].Get(c)
            - (if u == followed && c != FollowingsCounter then 1 else 0)
            - (if u == caller && c == FollowingsCounter then 1 else 0))
    && db'.notifications == WithoutFollowNotifications(db.notifications, followed, caller)
    && db'.memories == db.memories && db'.likes == db.likes && db'.comments == db.comments
    && db'.nextLike == db.nextLike && db'.nextComment == db.nextComment
    && db'.nextNotification == db.nextNotification
  }

  /** `addFollow`: the caller follows the user named by the route parameter. */
  function AddFollow(db: Db, caller: Id, followedParam: Option<Id>, now: Time): (r: Outcome)
    ensures followedParam.None? ==> r == Outcome(BadRequest, db)
    ensures followedParam.Some? && followedParam.value !in db.users ==> r == Outcome(NotFound, db)
    ensures (followedParam.Some? && followedParam.value in db.users && Follow(caller, followedParam.value) in db.follows)
              ==> r == Outcome(BadRequest, db)
    ensures r.status == Created <==>
              followedParam.Some? && followedParam.value in db.users && Follow(caller, followedParam.value) !in db.follows
    ensures r.status == Created ==> FollowAdded(db, r.db, caller, followedParam.value, now)
    ensures r.status == Created ==> |r.db.follows| == |db.follows| + 1
  {
    match followedParam
    case None => Outcome(BadRequest, db)
    case Some(followed) =>
      if followed !in db.users then Outcome(NotFound, db)
      else if Follow(caller, followed) in db.follows then Outcome(BadRequest, db)
      else
        var users1 := Bump(db.users, followed, FollowersCounter, 1);
        var users2 := Bump(users1, caller, FollowingsCounter, 1);
        var users3 := Bump(users2, followed, NotificationCounter, 1);
        Outcome(Created, db.(
          follows := db.follows + {Follow(caller, followed)},
          users := users3,
          notifications := db.notifications[db.nextNotification := FollowNotification(followed, caller, now)],
          nextNotification := db.nextNotification + 1))
  }

  /** `removeFollow`: the caller stops following the user named by the route parameter. */
  function RemoveFollow(db: Db, caller: Id, followedParam: Option<Id>): (r: Outcome)
    ensures followedParam.None? ==> r == Outcome(BadRequest, db)
    ensures followedParam.Some? && followedParam.value !in db.users ==> r == Outcome(NotFound, db)
    ensures (followedParam.Some? && followedParam.value in db.users && Follow(caller, followedParam.value) !in db.follows)
              ==> r == Outcome(BadRequest, db)
    ensures r.status == Ok <==>
              followedParam.Some? && followedParam.value in db.users && Follow(caller, followedParam.value) in db.follows
    ensures r.status == Ok ==> FollowRemoved(db, r.db, caller, followedParam.value)
  {
    match followedParam
    case None => Outcome(BadRequest, db)
    case Some(followed) =>
      if followed !in db.users then Outcome(NotFound, db)
      else if Follow(caller, followed) !in db.follows then Outcome(BadRequest, db)
      else
        var users1 := Bump(db.users, followed, FollowersCounter, -1);
        var users2 := Bump(users1, caller, FollowingsCounter, -1);
        var users3 := Bump(users2, followed, NotificationCounter, -1);
        Outcome(Ok, db.(
          follows := db.follows - {Follow(caller, followed)},
          users := users3,
          notifications := WithoutFollowNotifications(db.notifications, followed, caller)))
  }

  /** Two user rows with the same three counters are the same row. */
  lemma SameCountersSameRow(a: UserRow, b: UserRow)
    requires forall c :: a.Get(c) == b.Get(c)
    ensures a == b
  {
    assert a.Get(NotificationCounter) == b.Get(NotificationCounter);
    assert a.Get(FollowersCounter) == b.Get(FollowersCounter);
    assert a.Get(FollowingsCounter) == b.Get(FollowingsCounter);
  }

  /** Followers and followings of a user after one follower row is added. */
  lemma FollowSetsAfterInsert(follows: set<Follow>, f: Follow, u: Id)
    requires f !in follows
    ensures |FollowersOf(follows + {f}, u)| == |FollowersOf(follows, u)| + (if f.following == u then 1 else 0)
    ensures |FollowingsOf(follows + {f}, u)| == |FollowingsOf(follows, u)| + (if f.follower == u then 1 else 0)
  {
    if f.following == u {
      assert FollowersOf(follows + {f}, u) == FollowersOf(follows, u) + {f};
    } else {
      assert FollowersOf(follows + {f}, u) == FollowersOf(follows, u);
    }
    if f.follower == u {
      assert FollowingsOf(follows + {f}, u) == FollowingsOf(follows, u) + {f};
    } else {
      assert FollowingsOf(follows + {f}, u) == FollowingsOf(follows, u);
    }
  }

  /** Followers and followings of a user after one follower row is deleted. */
  lemma FollowSetsAfterDelete(follows: set<Follow>, f: Follow, u: Id)
    requires f in follows
    ensures |FollowersOf(follows - {f}, u)| == |FollowersOf(follows, u)| - (if f.following == u then 1 else 0)
    ensures |FollowingsOf(follows - {f}, u)| == |FollowingsOf(follows, u)| - (if f.follower == u then 1 else 0)
  {
    FollowSetsAfterInsert(follows - {f}, f, u);
    assert follows - {f} + {f} == follows;
  }

  /** Under `addFollow` the followers and followings counters keep equalling
      the number of follower rows that point at and start from each user. */
  lemma AddFollowKeepsCountersConsistent(db: Db, caller: Id, followedParam: Option<Id>, now: Time)
    requires Consistent(db)
    ensures Consistent(AddFollow(db, caller, followedParam, now).db)
  {
    var r := AddFollow(db, caller, followedParam, now);
    if r.status == Created {
      var f := Follow(caller, followedParam.value);
      forall u | u in r.db.users
        ensures r.db.users[u].followersCounter == |FollowersOf(r.db.follows, u)|
        ensures r.db.users[u].followingsCounter == |FollowingsOf(r.db.follows, u)|
      {
        FollowSetsAfterInsert(db.follows, f, u);
        assert r.db.users[u].Get(FollowersCounter) == r.db.users[u].followersCounter;
        assert r.db.users[u].Get(FollowingsCounter) == r.db.users[u].followingsCounter;
      }
    }
  }

  /** Under `removeFollow` the same two counters stay consistent. */
  lemma RemoveFollowKeepsCountersConsistent(db: Db, caller: Id, followedParam: Option<Id>)
    requires Consistent(db)
    ensures Consistent(RemoveFollow(db, caller, followedParam).db)
  {
    var r := RemoveFollow(db, caller, followedParam);
    if r.status == Ok {
      var f := Follow(caller, followedParam.value);
      forall u | u in r.db.users
        ensures r.db.users[u].followersCounter == |FollowersOf(r.db.follows, u)|
        ensures r.db.users[u].followingsCounter == |FollowingsOf(r.db.follows, u)|
      {
        FollowSetsAfterDelete(db.follows, f, u);
        assert r.db.users[u].Get(FollowersCounter) == r.db.users[u].followersCounter;
        assert r.db.users[u].Get(FollowingsCounter) == r.db.users[u].followingsCounter;
      }
      assert WellFormed(r.db);
    }
  }

  /** A second `addFollow` of the same pair is refused, so this path never
      stores the pair twice. */
  lemma FollowTwiceIsRefused(db: Db, caller: Id, followed: Id, now: Time, later: Time)
    requires followed in db.users && Follow(caller, followed) !in db.follows
    ensures var first := AddFollow(db, caller, Some(followed), now);
            var second := AddFollow(first.db, caller, Some(followed), later);
            first.status == Created && second.status == BadRequest && second.db == first.db
            && Follow(caller, followed) in second.db.follows
  {
  }

  /** A follow row added and then removed again: the users (all three
      counters) and the follower rows are back, the notification table has
      lost every NEW_FOLLOWER notification from the follower to the followed
      user, and the auto-increment counter has moved on. */
  lemma FollowUnfollowRestores(db: Db, a: Db, b: Db, caller: Id, followed: Id, now: Time)
    requires db.nextNotification !in db.notifications
    requires FollowAdded(db, a, caller, followed, now)
    requires FollowRemoved(a, b, caller, followed)
    ensures b == db.(notifications := WithoutFollowNotifications(db.notifications, followed, caller),
                     nextNotification := db.nextNotification + 1)
  {
    assert b.follows == db.follows;
    forall u | u in db.users ensures b.users[u] == db.users[u] {
      SameCountersSameRow(b.users[u], db.users[u]);
    }
    assert b.users == db.users;
    var want := WithoutFollowNotifications(db.notifications, followed, caller);
    assert b.notifications.Keys == want.Keys;
    assert b.notifications == want;
  }

  /** `addFollow` followed by `removeFollow` of the same pair restores the
      users (all three counters) and the follower rows, and leaves no
      NEW_FOLLOWER notification from the follower to the followed user: the
      notification table is the old one without such rows, whether or not the
      new notification was read in between. */
  lemma FollowThenUnfollow(db: Db, caller: Id, followed: Id, now: Time)
    requires followed in db.users && Follow(caller, followed) !in db.follows
    requires db.nextNotification !in db.notifications
    ensures var a := AddFollow(db, caller, Some(followed), now);
            var b := RemoveFollow(a.db, caller, Some(followed));
            && a.status == Created && b.status == Ok
            && b.db == db.(notifications := WithoutFollowNotifications(db.notifications, followed, caller),
                           nextNotification := db.nextNotification + 1)
  {
    var a := AddFollow(db, caller, Some(followed), now);
    var b := RemoveFollow(a.db, caller, Some(followed));
    FollowUnfollowRestores(db, a.db, b.db, caller, followed, now);
  }
}
