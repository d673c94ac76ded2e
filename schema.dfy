/** The rows and tables the interaction controllers read and write: users with
    their three counters, memories with their like and comment counters,
    follower pairs, likes, comments and notifications. A whole database state
    is the value `Db`; the controllers' pure specifications map one `Db` to the
    next, and the `Store` class holds the same tables as mutable fields. */
module Schema {

  /** Primary keys (auto-increment unsigned integers). */
  type Id = nat

  /** `createdAt`: an opaque timestamp that is only compared and ordered. */
  type Time = int

  datatype Option<T> = None | Some(value: T)

  /** HTTP status codes the handlers answer with. */
  const Ok: int := 200
  const Created: int := 201
  const BadRequest: int := 400
  const Forbidden: int := 403
  const NotFound: int := 404
  const ServerError: int := 500

  /** The three counter columns of a user row, named as the controllers name
      them in `increment`/`decrement` calls. */
  datatype UserCounter = NotificationCounter | FollowersCounter | FollowingsCounter

  /** Counters are plain integers: the ORM's `decrement` has no floor. */
  datatype UserRow = UserRow(notificationCounter: int, followersCounter: int, followingsCounter: int)
  {
    function Get(c: UserCounter): int {
      match c
      case NotificationCounter => notificationCounter
      case FollowersCounter => followersCounter
      case FollowingsCounter => followingsCounter
    }

    /** The row with counter `c` moved by `delta` and the other two untouched. */
    function Add(c: UserCounter, delta: int): (u: UserRow)
      ensures u.Get(c) == Get(c) + delta
      ensures forall d :: d != c ==> u.Get(d) == Get(d)
    {
      match c
      case NotificationCounter => this.(notificationCounter := notificationCounter + delta)
      case FollowersCounter => this.(followersCounter := followersCounter + delta)
      case FollowingsCounter => this.(followingsCounter := followingsCounter + delta)
    }
  }

  datatype MemoryRow = MemoryRow(owner: Id, likeCounter: int, commentCounter: int)

  datatype Follow = Follow(follower: Id, following: Id)

  datatype LikeRow = LikeRow(user: Id, memory: Id, createdAt: Time)

  datatype CommentRow = CommentRow(user: Id, memory: Id, content: string, createdAt: Time)

  /** The `type` column of a notification; the enum has exactly these three values. */
  datatype NotificationType = NewFollower | Like | Comment

  datatype NotificationRow = NotificationRow(
    recipient: Id,          // user_id: the user who receives the notification
    interactor: Id,         // interactor_id: the user who followed, liked or commented
    kind: NotificationType,
    source: Option<Id>,     // source_id: the like or comment that caused it
    isRead: bool,
    createdAt: Time)

  /** One database state. `nextLike`, `nextComment` and `nextNotification` are
      the auto-increment counters of the three tables whose ids the controllers
      read back after an insert. */
  datatype Db = Db(
    users: map<Id, UserRow>,
    memories: map<Id, MemoryRow>,
    follows: set<Follow>,
    likes: map<Id, LikeRow>,
    comments: map<Id, CommentRow>,
    notifications: map<Id, NotificationRow>,
    nextLike: Id,
    nextComment: Id,
    nextNotification: Id)

  /** A handler's answer and the database state it leaves behind. */
  datatype Outcome = Outcome(status: int, db: Db)

  /** `User.increment(c, { where: { id } })` (or `decrement` with a negative
      delta): an update whose where-clause matches no row changes nothing. */
  function Bump(users: map<Id, UserRow>, id: Id, c: UserCounter, delta: int): (r: map<Id, UserRow>)
    ensures r.Keys == users.Keys
    ensures forall u :: u in users && u != id ==> r[u] == users[u]
    ensures id in users ==> r[id] == users[id].Add(c, delta)
  {
    if id in users then users[id := users[id].Add(c, delta)] else users
  }

  /** An increment undone by a decrement leaves the users as they were; a
      step of the add-then-remove round-trip lemmas. */
  lemma BumpBack(users: map<Id, UserRow>, id: Id, c: UserCounter)
    ensures Bump(Bump(users, id, c, 1), id, c, -1) == users
  {
    if id in users {
      var row := users[id];
      assert row.Add(c, 1).Add(c, -1) == row by {
        match c
        case NotificationCounter =>
        case FollowersCounter =>
        case FollowingsCounter =>
      }
    }
  }

  /** Deleting the row just inserted under a fresh key restores the table; a
      step of the add-then-remove round-trip lemmas. */
  lemma DeleteInserted<V>(table: map<Id, V>, k: Id, v: V)
    requires k !in table
    ensures table[k := v] - {k} == table
  {
  }

  /** The value of counter `c` of user `u`, or 0 when there is no such user. */
  function Counter(db: Db, u: Id, c: UserCounter): int {
    if u in db.users then db.users[u].Get(c) else 0
  }

  /** Follower rows pointing at `u` (its followers). */
  function FollowersOf(follows: set<Follow>, u: Id): set<Follow> {
    set f | f in follows && f.following == u
  }

  /** Follower rows starting at `u` (the users it follows). */
  function FollowingsOf(follows: set<Follow>, u: Id): set<Follow> {
    set f | f in follows && f.follower == u
  }

  function LikesOn(likes: map<Id, LikeRow>, m: Id): set<Id> {
    set k | k in likes && likes[k].memory == m
  }

  function CommentsOn(comments: map<Id, CommentRow>, m: Id): set<Id> {
    set k | k in comments && comments[k].memory == m
  }

  /** Ids of the unread notifications addressed to `u`. */
  function UnreadOf(notifications: map<Id, NotificationRow>, u: Id): set<Id> {
    set k | k in notifications && notifications[k].recipient == u && !notifications[k].isRead
  }

  /** Every stored id is below its table's auto-increment counter, so the next
      insert gets a fresh id. */
  ghost predicate WellFormed(db: Db) {
    && (forall k :: k in db.likes ==> k < db.nextLike)
    && (forall k :: k in db.comments ==> k < db.nextComment)
    && (forall k :: k in db.notifications ==> k < db.nextNotification)
  }

  /** The derived counters agree with the rows they count: followers and
      followings of every user, likes and comments of every memory. */
  ghost predicate Consistent(db: Db) {
    && WellFormed(db)
    && (forall u :: u in db.users ==>
          && db.users[u].followersCounter == |FollowersOf(db.follows, u)|
          && db.users[u].followingsCounter == |FollowingsOf(db.follows, u)|)
    && (forall m :: m in db.memories ==>
          && db.memories[m].likeCounter == |LikesOn(db.likes, m)|
          && db.memories[m].commentCounter == |CommentsOn(db.comments, m)|)
  }

  /** `k` is the smallest element of `s`. */
  predicate IsLeast(s: set<Id>, k: Id) {
    k in s && forall j :: j in s ==> k <= j
  }

  lemma {:induction false} MinExists(s: set<Id>)
    requires s != {}
    ensures exists k :: IsLeast(s, k)
    decreases |s|
  {
    var x :| x in s;
    var rest := s - {x};
    if rest == {} {
      assert s == {x};
      assert IsLeast(s, x);
    } else {
      assert |rest| < |s|;
      MinExists(rest);
      var k :| IsLeast(rest, k);
      var m := if x < k then x else k;
      forall j | j in s
        ensures m <= j
      {
        if j != x {
          assert j in rest;
        }
      }
      assert IsLeast(s, m);
    }
  }

  /** The smallest id of a non-empty set: the row an unordered `findOne`
      returns when several rows match. */
  function MinKey(s: set<Id>): (k: Id)
    requires s != {}
    ensures k in s && forall j :: j in s ==> k <= j
  {
    MinExists(s);
    var k :| IsLeast(s, k);
    k
  }

  /** The ids of `s` in ascending order: the order of an unordered `findAll`. */
  function AscendingIds(s: set<Id>): (r: seq<Id>)
    ensures |r| == |s|
    ensures forall i :: 0 <= i < |r| ==> r[i] in s
    ensures forall k :: k in s ==> k in r
    ensures forall i, j :: 0 <= i < j < |r| ==> r[i] < r[j]
    decreases |s|
  {
    if s == {} then []
    else
      var k := MinKey(s);
      var rest := AscendingIds(s - {k});
      PrependLeast(s, k, rest);
      [k] + rest
  }

  /** Putting the least id in front of the ascending rest of the set gives
      the whole set in ascending order. */
  lemma PrependLeast(s: set<Id>, k: Id, rest: seq<Id>)
    requires IsLeast(s, k)
    requires |rest| == |s - {k}|
    requires forall i :: 0 <= i < |rest| ==> rest[i] in s - {k}
    requires forall x :: x in s - {k} ==> x in rest
    requires forall i, j :: 0 <= i < j < |rest| ==> rest[i] < rest[j]
    ensures |[k] + rest| == |s|
    ensures forall i :: 0 <= i < |[k] + rest| ==> ([k] + rest)[i] in s
    ensures forall x :: x in s ==> x in [k] + rest
    ensures forall i, j :: 0 <= i < j < |[k] + rest| ==> ([k] + rest)[i] < ([k] + rest)[j]
  {
    var r := [k] + rest;
    forall i, j | 0 <= i < j < |r|
      ensures r[i] < r[j]
    {
      if i > 0 {
        assert r[i] == rest[i - 1] && r[j] == rest[j - 1];
      } else {
        assert r[j] == rest[j - 1];
      }
    }
    forall x | x in s
      ensures x in r
    {
      if x != k {
        assert x in rest;
      }
    }
  }

  /** Ids of the unread notifications of `kind` from `interactor` to
      `recipient` created at `t`: the where-clause of the lookup that
      `removeLikeFromMemory` and `deleteCommentController` run before cleaning up. */
  function UnreadMatches(ns: map<Id, NotificationRow>, recipient: Id, interactor: Id, kind: NotificationType, t: Time): set<Id> {
    set k | k in ns && ns[k].recipient == recipient && ns[k].interactor == interactor
            && ns[k].kind == kind && !ns[k].isRead && ns[k].createdAt == t
  }

  /** The read-gated cleanup shared by like removal and comment deletion: the
      first matching unread notification is destroyed and the owner's counter
      is decremented only if the owner exists and the counter is positive.
      When nothing unread matches (the notification was read, or never
      existed) nothing changes. */
  function RemoveUnreadNotification(db: Db, owner: Id, interactor: Id, kind: NotificationType, t: Time): (r: Db)
    ensures UnreadMatches(db.notifications, owner, interactor, kind, t) == {} ==> r == db
    ensures var found := UnreadMatches(db.notifications, owner, interactor, kind, t);
            found != {} ==> r.notifications == db.notifications - {MinKey(found)}
                            && |r.notifications| == |db.notifications| - 1
    ensures r.users.Keys == db.users.Keys
    ensures forall u, c :: u in db.users && (u != owner || c != NotificationCounter) ==> r.users[u].Get(c) == db.users[u].Get(c)
    ensures owner in db.users ==>
              r.users[owner].notificationCounter ==
                if UnreadMatches(db.notifications, owner, interactor, kind, t) != {} && db.users[owner].notificationCounter > 0
                then db.users[owner].notificationCounter - 1
                else db.users[owner].notificationCounter
    ensures r == db.(notifications := r.notifications, users := r.users)
  {
    var found := UnreadMatches(db.notifications, owner, interactor, kind, t);
    if found == {} then db
    else
      var n := MinKey(found);
      db.(notifications := db.notifications - {n},
          users := if owner in db.users && db.users[owner].notificationCounter > 0
                   then Bump(db.users, owner, NotificationCounter, -1)
                   else db.users)
  }
}
