/** The notification feed: the two list queries, marking one notification
    read, and marking all of a user's notifications read inside one
    transaction. */
module NotificationController {
  import opened Schema

  /** Is `k` the newest notification of `ids`, the smaller id winning a tie? */
  predicate IsNewest(ns: map<Id, NotificationRow>, ids: set<Id>, k: Id)
    requires ids <= ns.Keys
  {
    k in ids && forall j :: j in ids ==>
      ns[j].createdAt < ns[k].createdAt || (ns[j].createdAt == ns[k].createdAt && k <= j)
  }

  lemma {:induction false} NewestExists(ns: map<Id, NotificationRow>, ids: set<Id>)
    requires ids <= ns.Keys && ids != {}
    ensures exists k :: IsNewest(ns, ids, k)
    decreases |ids|
  {
    var x :| x in ids;
    if ids == {x} {
      assert IsNewest(ns, ids, x);
    } else {
      var rest := ids - {x};
      NewestExists(ns, rest);
      var k :| IsNewest(ns, rest, k);
      var best := if ns[x].createdAt > ns[k].createdAt || (ns[x].createdAt == ns[k].createdAt && x < k) then x else k;
      forall j | j in ids
        ensures ns[j].createdAt < ns[best].createdAt || (ns[j].createdAt == ns[best].createdAt && best <= j)
      {
        if j != x { assert j in rest; }
      }
      assert IsNewest(ns, ids, best);
    }
  }

  function Newest(ns: map<Id, NotificationRow>, ids: set<Id>): (k: Id)
    requires ids <= ns.Keys && ids != {}
    ensures IsNewest(ns, ids, k)
  {
    NewestExists(ns, ids);
    var k :| IsNewest(ns, ids, k);
    k
  }

  /** The ids of `ids` ordered by `createdAt`, newest first (`ORDER BY
      createdAt DESC`); rows with equal `createdAt` come in id order. */
  function NewestFirst(ns: map<Id, NotificationRow>, ids: set<Id>): (r: seq<Id>)
    requires ids <= ns.Keys
    ensures |r| == |ids|
    ensures forall i :: 0 <= i < |r| ==> r[i] in ids
    ensures forall k :: k in ids ==> k in r
    ensures forall i, j :: 0 <= i < j < |r| ==> r[i] != r[j]
    ensures forall i, j :: 0 <= i < j < |r| ==> ns[r[i]].createdAt >= ns[r[j]].createdAt
    decreases |ids|
  {
    if ids == {} then []
    else
      var k := Newest(ns, ids);
      var rest := NewestFirst(ns, ids - {k});
      PrependNewest(ns, ids, k, rest);
      [k] + rest
  }

  /** Putting the newest notification in front of the newest-first rest of
      the set gives the whole set newest first. */
  lemma PrependNewest(ns: map<Id, NotificationRow>, ids: set<Id>, k: Id, rest: seq<Id>)
    requires ids <= ns.Keys && IsNewest(ns, ids, k)
    requires |rest| == |ids - {k}|
    requires forall i :: 0 <= i < |rest| ==> rest[i] in ids - {k}
    requires forall x :: x in ids - {k} ==> x in rest
    requires forall i, j :: 0 <= i < j < |rest| ==> rest[i] != rest[j]
    requires forall i, j :: 0 <= i < j < |rest| ==> ns[rest[i]].createdAt >= ns[rest[j]].createdAt
    ensures |[k] + rest| == |ids|
    ensures forall i :: 0 <= i < |[k] + rest| ==> ([k] + rest)[i] in ids
    ensures forall x :: x in ids ==> x in [k] + rest
    ensures forall i, j :: 0 <= i < j < |[k] + rest| ==> ([k] + rest)[i] != ([k] + rest)[j]
    ensures forall i, j :: 0 <= i < j < |[k] + rest| ==>
              ns[([k] + rest)[i]].createdAt >= ns[([k] + rest)[j]].createdAt
  {
    var r := [k] + rest;
    forall i, j | 0 <= i < j < |r|
      ensures r[i] != r[j] && ns[r[i]].createdAt >= ns[r[j]].createdAt
    {
      assert r[j] == rest[j - 1];
      if i > 0 {
        assert r[i] == rest[i - 1];
      }
    }
    forall x | x in ids
      ensures x in r
    {
      if x != k {
        assert x in rest;
      }
    }
  }

  function NotificationsOf(ns: map<Id, NotificationRow>, u: Id): set<Id> {
    set k | k in ns && ns[k].recipient == u
  }

  /** `getNotificationController`: the ids of the caller's notifications,
      newest first. */
  function Feed(db: Db, caller: Id): (r: seq<Id>)
    ensures forall i :: 0 <= i < |r| ==> r[i] in db.notifications && db.notifications[r[i]].recipient == caller
    ensures forall k :: k in db.notifications && db.notifications[k].recipient == caller ==> k in r
    ensures forall i, j :: 0 <= i < j < |r| ==> r[i] != r[j]
    ensures forall i, j :: 0 <= i < j < |r| ==>
              db.notifications[r[i]].createdAt >= db.notifications[r[j]].createdAt
  {
    NewestFirst(db.notifications, NotificationsOf(db.notifications, caller))
  }

  /** `getUnreadNotificationController`: the ids of the caller's unread
      notifications, newest first. */
  function UnreadFeed(db: Db, caller: Id): (r: seq<Id>)
    ensures forall i :: 0 <= i < |r| ==>
              r[i] in db.notifications && db.notifications[r[i]].recipient == caller && !db.notifications[r[i]].isRead
    ensures forall k :: k in db.notifications && db.notifications[k].recipient == caller && !db.notifications[k].isRead
              ==> k in r
    ensures forall i, j :: 0 <= i < j < |r| ==> r[i] != r[j]
    ensures forall i, j :: 0 <= i < j < |r| ==>
              db.notifications[r[i]].createdAt >= db.notifications[r[j]].createdAt
    ensures |r| == |UnreadOf(db.notifications, caller)|
  {
    NewestFirst(db.notifications, UnreadOf(db.notifications, caller))
  }

  /** The state a successful `readNotificationController` leaves:
      notification `k` flagged read, the caller's notification counter one
      lower when it was positive, every other counter and row untouched. */
  ghost predicate MarkedRead(db: Db, db': Db, caller: Id, k: Id) {
    && k in db.notifications
    && db'.notifications == db.notifications[k := db.notifications[k].(isRead := true)]
    && db'.users.Keys == db.users.Keys
    && (forall u, c :: u in db.users && (u != caller || c != NotificationCounter) ==>
          db'.users[u].Get(c) == db.users[u].Get(c))
    && (caller in db.users ==>
          db'.users[caller].notificationCounter ==
            if db.users[caller].notificationCounter > 0
            then db.users[caller].notificationCounter - 1
            else db.users[caller].notificationCounter)
    && db' == db.(notifications := db'.notifications, users := db'.users)
  }

  /** `readNotificationController`: flags the notification named by the route
      parameter as read, whoever it is addressed to, and decrements the
      CALLER's counter when it is positive, even if the notification was
      already read. */
  function ReadNotification(db: Db, caller: Id, notificationParam: Option<Id>): (r: Outcome)
    ensures notificationParam.None? ==> r == Outcome(NotFound, db)
    ensures notificationParam.Some? && notificationParam.value !in db.notifications ==> r == Outcome(NotFound, db)
    ensures r.status == Ok <==> notificationParam.Some? && notificationParam.value in db.notifications
    ensures r.status == Ok ==> MarkedRead(db, r.db, caller, notificationParam.value)
  {
    match notificationParam
    case None => Outcome(NotFound, db)
    case Some(k) =>
      if k !in db.notifications then Outcome(NotFound, db)
      else
        var users := if caller in db.users && db.users[caller].notificationCounter > 0
                     then Bump(db.users, caller, NotificationCounter, -1)
                     else db.users;
        Outcome(Ok, db.(notifications := db.notifications[k := db.notifications[k].(isRead := true)], users := users))
  }

  /** The steps of `readAllNotificationController`'s transaction, any of
      which the storage layer may fail. */
  datatype ReadAllStep = FindUnread | BulkUpdate | FindUser | SaveUser | Commit

  datatype Fault = NoFault | FailAt(step: ReadAllStep)

  /** Whether a step is executed at all: the counter is saved only for an
      existing caller whose counter is positive. */
  predicate StepRuns(db: Db, caller: Id, step: ReadAllStep) {
    step == SaveUser ==> caller in db.users && db.users[caller].notificationCounter > 0
  }

  /** The notification table after the bulk update `isRead := true` where
      the recipient is `u` and `isRead` is false. */
  function MarkAllRead(ns: map<Id, NotificationRow>, u: Id): (r: map<Id, NotificationRow>)
    ensures r.Keys == ns.Keys
    ensures forall k :: k in ns && ns[k].recipient != u ==> r[k] == ns[k]
    ensures forall k :: k in ns && ns[k].recipient == u ==> r[k] == ns[k].(isRead := true)
    ensures UnreadOf(r, u) == {}
  {
    map k | k in ns :: if ns[k].recipient == u && !ns[k].isRead then ns[k].(isRead := true) else ns[k]
  }

  /** `readAllNotificationController`: inside one transaction, counts the
      caller's unread notifications, flags them all read, and sets the
      caller's counter to `max(0, c - n)` when it is positive. A failing step
      rolls everything back and answers 500. */
  function ReadAll(db: Db, caller: Id, fault: Fault): (r: Outcome)
    ensures r.status == ServerError <==> fault.FailAt? && StepRuns(db, caller, fault.step)
    ensures r.status == ServerError ==> r.db == db
    ensures r.status != ServerError ==>
              && r.status == Ok
              && r.db.notifications == MarkAllRead(db.notifications, caller)
              && UnreadOf(r.db.notifications, caller) == {}
              && r.db.users.Keys == db.users.Keys
              && (forall u, c :: u in db.users && (u != caller || c != NotificationCounter) ==>
                    r.db.users[u].Get(c) == db.users[u].Get(c))
              && (caller in db.users ==>
                    var c := db.users[caller].notificationCounter;
                    var n := |UnreadOf(db.notifications, caller)|;
                    r.db.users[caller].notificationCounter == if c > 0 then (if c - n > 0 then c - n else 0) else c)
              && r.db == db.(notifications := r.db.notifications, users := r.db.users)
  {
    if fault.FailAt? && StepRuns(db, caller, fault.step) then Outcome(ServerError, db)
    else
      var unreadCount := |UnreadOf(db.notifications, caller)|;
      var ns := MarkAllRead(db.notifications, caller);
      var users := if caller in db.users && db.users[caller].notificationCounter > 0
                   then
                     var c := db.users[caller].notificationCounter;
                     db.users[caller := db.users[caller].(notificationCounter := if c - unreadCount > 0 then c - unreadCount else 0)]
                   else db.users;
      Outcome(Ok, db.(notifications := ns, users := users))
  }

  /** Marking all read is idempotent: a second run finds nothing unread and
      changes neither the flags nor the counter. */
  lemma ReadAllIsIdempotent(db: Db, caller: Id)
    ensures var once := ReadAll(db, caller, NoFault);
            ReadAll(once.db, caller, NoFault) == once
  {
    var once := ReadAll(db, caller, NoFault);
    var twice := ReadAll(once.db, caller, NoFault);
    assert UnreadOf(once.db.notifications, caller) == {};
    assert twice.db.notifications == once.db.notifications;
    if caller in db.users {
      assert twice.db.users[caller] == once.db.users[caller];
    }
    assert twice.db.users == once.db.users;
  }

  /** Neither read operation touches the derived follow, like or comment
      counters, nor the rows they count. */
  lemma ReadsKeepCountersConsistent(db: Db, caller: Id, notificationParam: Option<Id>, fault: Fault)
    requires Consistent(db)
    ensures Consistent(ReadNotification(db, caller, notificationParam).db)
    ensures Consistent(ReadAll(db, caller, fault).db)
  {
    var r1 := ReadNotification(db, caller, notificationParam);
    forall u | u in r1.db.users
      ensures r1.db.users[u].followersCounter == db.users[u].followersCounter
      ensures r1.db.users[u].followingsCounter == db.users[u].followingsCounter
    {
      assert r1.db.users[u].Get(FollowersCounter) == db.users[u].Get(FollowersCounter);
      assert r1.db.users[u].Get(FollowingsCounter) == db.users[u].Get(FollowingsCounter);
    }
    var r2 := ReadAll(db, caller, fault);
    forall u | u in r2.db.users
      ensures r2.db.users[u].followersCounter == db.users[u].followersCounter
      ensures r2.db.users[u].followingsCounter == db.users[u].followingsCounter
    {
      assert r2.db.users[u].Get(FollowersCounter) == db.users[u].Get(FollowersCounter);
      assert r2.db.users[u].Get(FollowingsCounter) == db.users[u].Get(FollowingsCounter);
    }
  }

  /** Reading the same notification twice decrements the caller's counter
      twice, although only one notification became read: the counter is not
      kept equal to the number of unread notifications. */
  lemma ReadingTwiceCountsTwice(db: Db, caller: Id, k: Id)
    requires k in db.notifications && db.notifications[k].recipient == caller
    requires caller in db.users && db.users[caller].notificationCounter >= 2
    ensures var once := ReadNotification(db, caller, Some(k));
            var twice := ReadNotification(once.db, caller, Some(k));
            && twice.status == Ok
            && twice.db.notifications == once.db.notifications
            && twice.db.users[caller].notificationCounter == db.users[caller].notificationCounter - 2
  {
  }
}
