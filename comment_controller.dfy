/** The four comment handlers: the comment list of a memory, and comment
    creation, deletion and update as functions from one database state to the
    next. The comment counter moves in lockstep with the comment rows; the
    COMMENT notification is cleaned up only while unread, and only when the
    requester is the one who commented. */
module CommentController {
  import opened Schema

  /** The comment notification `addCommentController` creates for the memory's owner. */
  function CommentNotification(owner: Id, author: Id, commentId: Id, t: Time): NotificationRow {
    NotificationRow(owner, author, Comment, Some(commentId), false, t)
  }

  /** `getCommentsOfMemoryController`: the status and the ids of the comments
      of the memory named by the route parameter (in id order; the query
      itself asks for no order). */
  function GetComments(db: Db, memoryParam: Option<Id>): (r: (int, seq<Id>))
    ensures memoryParam.None? ==> r.0 == BadRequest
    ensures memoryParam.Some? && memoryParam.value !in db.memories ==> r.0 == NotFound
    ensures r.0 == Ok <==> memoryParam.Some? && memoryParam.value in db.memories
    ensures r.0 != Ok ==> r.1 == []
    ensures r.0 == Ok ==>
              && (forall i :: 0 <= i < |r.1| ==> r.1[i] in db.comments && db.comments[r.1[i]].memory == memoryParam.value)
              && (forall k :: k in db.comments && db.comments[k].memory == memoryParam.value ==> k in r.1)
              && (forall i, j :: 0 <= i < j < |r.1| ==> r.1[i] != r.1[j])
  {
    match memoryParam
    case None => (BadRequest, [])
    case Some(m) =>
      if m !in db.memories then (NotFound, [])
      else (Ok, AscendingIds(CommentsOn(db.comments, m)))
  }

  /** The state a successful `addCommentController` leaves: one new comment
      with the next comment id, the memory's comment counter one higher, one
      unread COMMENT notification to the owner pointing at the comment and
      carrying its `createdAt`, and the owner's notification counter one
      higher if the owner's user row exists. */
  ghost predicate CommentAdded(db: Db, db': Db, caller: Id, m: Id, content: string, now: Time) {
    && m in db.memories
    && var owner := db.memories[m].owner;
    && db'.comments == db.comments[db.nextComment := CommentRow(caller, m, content, now)]
    && db'.nextComment == db.nextComment + 1
    && db'.memories == db.memories[m := db.memories[m].(commentCounter := db.memories[m].commentCounter + 1)]
    && db'.notifications == db.notifications[db.nextNotification := CommentNotification(owner, caller, db.nextComment, now)]
    && db'.nextNotification == db.nextNotification + 1
    && db'.users == Bump(db.users, owner, NotificationCounter, 1)
    && db'.follows == db.follows && db'.likes == db.likes && db'.nextLike == db.nextLike
  }

  /** `addCommentController`: the caller comments `content` on the memory
      named by the route parameter. An empty content is refused before the
      memory is even looked up. */
  function AddComment(db: Db, caller: Id, memoryParam: Option<Id>, content: string, now: Time): (r: Outcome)
    ensures memoryParam.None? ==> r == Outcome(BadRequest, db)
    ensures content == "" ==> r == Outcome(BadRequest, db)
    ensures (memoryParam.Some? && content != "" && memoryParam.value !in db.memories) ==> r == Outcome(NotFound, db)
    ensures r.status == Created <==> memoryParam.Some? && content != "" && memoryParam.value in db.memories
    ensures r.status == Created ==> CommentAdded(db, r.db, caller, memoryParam.value, content, now)
  {
    match memoryParam
    case None => Outcome(BadRequest, db)
    case Some(m) =>
      if content == "" then Outcome(BadRequest, db)
      else if m !in db.memories then Outcome(NotFound, db)
      else
        var memory := db.memories[m];
        var commentId := db.nextComment;
        Outcome(Created, db.(
          comments := db.comments[commentId := CommentRow(caller, m, content, now)],
          nextComment := commentId + 1,
          memories := db.memories[m := memory.(commentCounter := memory.commentCounter + 1)],
          notifications := db.notifications[db.nextNotification := CommentNotification(memory.owner, caller, commentId, now)],
          nextNotification := db.nextNotification + 1,
          users := Bump(db.users, memory.owner, NotificationCounter, 1)))
  }

  /** The state a successful `deleteCommentController` leaves: comment `c`
      gone, its memory's comment counter one lower, and the unread COMMENT
      notification from the CALLER with the comment's `createdAt` cleaned up
      as `RemoveUnreadNotification` describes. */
  ghost predicate CommentDeleted(db: Db, db': Db, caller: Id, c: Id) {
    && c in db.comments && db.comments[c].memory in db.memories
    && var m := db.comments[c].memory;
    && db'.comments == db.comments - {c}
    && db'.memories == db.memories[m := db.memories[m].(commentCounter := db.memories[m].commentCounter - 1)]
    && var cleaned := RemoveUnreadNotification(db, db.memories[m].owner, caller, Comment, db.comments[c].createdAt);
    && db'.notifications == cleaned.notifications
    && db'.users == cleaned.users
    && db'.follows == db.follows && db'.likes == db.likes
    && db'.nextLike == db.nextLike && db'.nextComment == db.nextComment
    && db'.nextNotification == db.nextNotification
  }

  /** `deleteCommentController`: the caller deletes the comment named by the
      route parameter. The cleanup looks for an unread COMMENT notification
      whose interactor is the caller (not the comment's author) and whose
      `createdAt` is the comment's. */
  function DeleteComment(db: Db, caller: Id, commentParam: Option<Id>): (r: Outcome)
    ensures commentParam.None? ==> r == Outcome(BadRequest, db)
    ensures commentParam.Some? && commentParam.value !in db.comments ==> r == Outcome(NotFound, db)
    ensures (commentParam.Some? && commentParam.value in db.comments && db.comments[commentParam.value].memory !in db.memories)
              ==> r == Outcome(NotFound, db)
    ensures r.status == Ok <==>
              commentParam.Some? && commentParam.value in db.comments && db.comments[commentParam.value].memory in db.memories
    ensures r.status == Ok ==> CommentDeleted(db, r.db, caller, commentParam.value)
  {
    match commentParam
    case None => Outcome(BadRequest, db)
    case Some(c) =>
      if c !in db.comments then Outcome(NotFound, db)
      else
        var comment := db.comments[c];
        if comment.memory !in db.memories then Outcome(NotFound, db)
        else
          var memory := db.memories[comment.memory];
          var db1 := db.(memories := db.memories[comment.memory := memory.(commentCounter := memory.commentCounter - 1)]);
          var db2 := RemoveUnreadNotification(db1, memory.owner, caller, Comment, comment.createdAt);
          Outcome(Ok, db2.(comments := db2.comments - {c}))
  }

  /** `updateCommentController`: replaces the content of the comment named by
      the route parameter and nothing else. */
  function UpdateComment(db: Db, commentParam: Option<Id>, content: string): (r: Outcome)
    ensures commentParam.None? ==> r == Outcome(BadRequest, db)
    ensures content == "" ==> r == Outcome(BadRequest, db)
    ensures (commentParam.Some? && content != "" && commentParam.value !in db.comments) ==> r == Outcome(NotFound, db)
    ensures r.status == Ok <==> commentParam.Some? && content != "" && commentParam.value in db.comments
    ensures r.status == Ok ==>
              var c := commentParam.value;
              && r.db.comments.Keys == db.comments.Keys
              && r.db.comments[c].content == content
              && r.db.comments[c] == db.comments[c].(content := content)
              && (forall k :: k in db.comments && k != c ==> r.db.comments[k] == db.comments[k])
              && r.db == db.(comments := r.db.comments)
  {
    match commentParam
    case None => Outcome(BadRequest, db)
    case Some(c) =>
      if content == "" then Outcome(BadRequest, db)
      else if c !in db.comments then Outcome(NotFound, db)
      else Outcome(Ok, db.(comments := db.comments[c := db.comments[c].(content := content)]))
  }

  /** Comments on a memory after one comment row is stored under a fresh id. */
  lemma CommentsOnAfterInsert(comments: map<Id, CommentRow>, k: Id, comment: CommentRow, m: Id)
    requires k !in comments
    ensures |CommentsOn(comments[k := comment], m)| == |CommentsOn(comments, m)| + (if comment.memory == m then 1 else 0)
  {
    if comment.memory == m {
      assert CommentsOn(comments[k := comment], m) == CommentsOn(comments, m) + {k};
    } else {
      assert CommentsOn(comments[k := comment], m) == CommentsOn(comments, m);
    }
  }

  /** Comments on a memory after one comment row is deleted. */
  lemma CommentsOnAfterDelete(comments: map<Id, CommentRow>, k: Id, m: Id)
    requires k in comments
    ensures |CommentsOn(comments - {k}, m)| == |CommentsOn(comments, m)| - (if comments[k].memory == m then 1 else 0)
  {
    var rest := comments - {k};
    CommentsOnAfterInsert(rest, k, comments[k], m);
    assert rest[k := comments[k]] == comments;
  }

  /** Follow counters are untouched when only notification counters move. */
  lemma FollowCountersKept(before: map<Id, UserRow>, after: map<Id, UserRow>)
    requires after.Keys == before.Keys
    requires forall u, c :: u in before && c != NotificationCounter ==> after[u].Get(c) == before[u].Get(c)
    ensures forall u :: u in after ==>
              after[u].followersCounter == before[u].followersCounter && after[u].followingsCounter == before[u].followingsCounter
  {
    forall u | u in after
      ensures after[u].followersCounter == before[u].followersCounter
      ensures after[u].followingsCounter == before[u].followingsCounter
    {
      assert after[u].Get(FollowersCounter) == before[u].Get(FollowersCounter);
      assert after[u].Get(FollowingsCounter) == before[u].Get(FollowingsCounter);
    }
  }

  /** Under `addCommentController` every memory's comment counter keeps
      equalling its number of comments. */
  lemma AddCommentKeepsCountersConsistent(db: Db, caller: Id, memoryParam: Option<Id>, content: string, now: Time)
    requires Consistent(db)
    ensures Consistent(AddComment(db, caller, memoryParam, content, now).db)
  {
    var r := AddComment(db, caller, memoryParam, content, now);
    if r.status == Created {
      var m := memoryParam.value;
      forall x | x in r.db.memories
        ensures r.db.memories[x].commentCounter == |CommentsOn(r.db.comments, x)|
      {
        CommentsOnAfterInsert(db.comments, db.nextComment, CommentRow(caller, m, content, now), x);
      }
      FollowCountersKept(db.users, r.db.users);
    }
  }

  /** Under `deleteCommentController` the derived counters stay consistent. */
  lemma DeleteCommentKeepsCountersConsistent(db: Db, caller: Id, commentParam: Option<Id>)
    requires Consistent(db)
    ensures Consistent(DeleteComment(db, caller, commentParam).db)
  {
    var r := DeleteComment(db, caller, commentParam);
    if r.status == Ok {
      var c := commentParam.value;
      forall x | x in r.db.memories
        ensures r.db.memories[x].commentCounter == |CommentsOn(r.db.comments, x)|
      {
        CommentsOnAfterDelete(db.comments, c, x);
      }
      FollowCountersKept(db.users, r.db.users);
    }
  }

  /** Under `updateCommentController` the derived counters stay consistent:
      the comment keeps its memory. */
  lemma UpdateCommentKeepsCountersConsistent(db: Db, commentParam: Option<Id>, content: string)
    requires Consistent(db)
    ensures Consistent(UpdateComment(db, commentParam, content).db)
  {
    var r := UpdateComment(db, commentParam, content);
    if r.status == Ok {
      forall x | x in r.db.memories
        ensures CommentsOn(r.db.comments, x) == CommentsOn(db.comments, x)
      {
      }
    }
  }

  /** When the requester is not the interactor of a notification, deleting a
      comment leaves that notification in place: in particular a moderator or
      the memory's owner deleting someone else's comment removes none of the
      commenter's notifications. */
  lemma DeleteByAnotherKeepsTheirNotifications(db: Db, caller: Id, commentParam: Option<Id>)
    ensures var r := DeleteComment(db, caller, commentParam);
            forall k :: k in db.notifications && db.notifications[k].interactor != caller ==>
                          k in r.db.notifications && r.db.notifications[k] == db.notifications[k]
  {
    var r := DeleteComment(db, caller, commentParam);
    if r.status == Ok {
      var c := commentParam.value;
      var m := db.comments[c].memory;
      var found := UnreadMatches(db.notifications, db.memories[m].owner, caller, Comment, db.comments[c].createdAt);
      if found != {} {
        assert db.notifications[MinKey(found)].interactor == caller;
      }
    }
  }

  /** The owner's counter goes up by one for the new comment and comes back
      down when its author deletes it, so the user rows are restored (given
      the counter was not negative). */
  lemma CommentDeleteUsers(db: Db, a: Db, b: Db, caller: Id, m: Id, content: string, now: Time)
    requires WellFormed(db)
    requires CommentAdded(db, a, caller, m, content, now)
    requires db.memories[m].owner in db.users ==> db.users[db.memories[m].owner].notificationCounter >= 0
    requires CommentDeleted(a, b, caller, db.nextComment)
    ensures b.users == db.users
  {
    var owner := db.memories[m].owner;
    assert a.comments[db.nextComment].createdAt == now;
    assert db.nextNotification in UnreadMatches(a.notifications, owner, caller, Comment, now);
    if owner in db.users {
      assert a.users[owner].notificationCounter > 0;
      assert b.users == Bump(a.users, owner, NotificationCounter, -1);
      BumpBack(db.users, owner, NotificationCounter);
    } else {
      assert b.users == a.users;
    }
  }

  /** The comment rows after a comment and its deletion by its author. */
  lemma CommentDeleteRows(db: Db, a: Db, b: Db, caller: Id, m: Id, content: string, now: Time)
    requires WellFormed(db)
    requires CommentAdded(db, a, caller, m, content, now)
    requires CommentDeleted(a, b, caller, db.nextComment)
    ensures b.comments == db.comments
  {
    assert db.nextComment !in db.comments;
    DeleteInserted(db.comments, db.nextComment, CommentRow(caller, m, content, now));
  }

  /** The memories after a comment and its deletion by its author. */
  lemma CommentDeleteMemories(db: Db, a: Db, b: Db, caller: Id, m: Id, content: string, now: Time)
    requires CommentAdded(db, a, caller, m, content, now)
    requires CommentDeleted(a, b, caller, db.nextComment)
    ensures b.memories == db.memories
  {
    var mem := db.memories[m];
    assert a.comments[db.nextComment].memory == m;
    assert b.memories == db.memories[m := mem];
  }

  /** The notification table after a comment and its deletion by its author:
      as many rows as before the comment, and the old table itself when no
      older unread COMMENT notification of the same pair and time exists. */
  lemma CommentDeleteNotifications(db: Db, a: Db, b: Db, caller: Id, m: Id, content: string, now: Time)
    requires WellFormed(db)
    requires CommentAdded(db, a, caller, m, content, now)
    requires CommentDeleted(a, b, caller, db.nextComment)
    ensures |b.notifications| == |db.notifications|
    ensures UnreadMatches(db.notifications, db.memories[m].owner, caller, Comment, now) == {} ==>
              b.notifications == db.notifications
  {
    var owner := db.memories[m].owner;
    assert a.comments[db.nextComment].createdAt == now;
    var found := UnreadMatches(a.notifications, owner, caller, Comment, now);
    assert db.nextNotification in found;
    assert b.notifications == a.notifications - {MinKey(found)};
    assert db.nextNotification !in db.notifications;
    assert |a.notifications| == |db.notifications| + 1;
    if UnreadMatches(db.notifications, owner, caller, Comment, now) == {} {
      assert found == {db.nextNotification};
      assert a.notifications - {db.nextNotification} == db.notifications;
    }
  }

  /** `addCommentController` then `deleteCommentController` of the new
      comment by its author, with no read in between, restores the comments,
      the memories (the comment counter) and the users (the owner's
      notification counter, provided it was not negative), and takes exactly
      one notification away again; when no older unread COMMENT notification
      of the same pair and time exists, the notification table is restored
      too. */
  lemma CommentThenDelete(db: Db, caller: Id, m: Id, content: string, now: Time)
    requires WellFormed(db)
    requires m in db.memories && content != ""
    requires db.memories[m].owner in db.users ==> db.users[db.memories[m].owner].notificationCounter >= 0
    ensures var a := AddComment(db, caller, Some(m), content, now);
            var b := DeleteComment(a.db, caller, Some(db.nextComment));
            && a.status == Created && b.status == Ok
            && b.db.comments == db.comments && b.db.memories == db.memories && b.db.users == db.users
            && |b.db.notifications| == |db.notifications|
            && (UnreadMatches(db.notifications, db.memories[m].owner, caller, Comment, now) == {} ==>
                  b.db.notifications == db.notifications)
  {
    var a := AddComment(db, caller, Some(m), content, now);
    var b := DeleteComment(a.db, caller, Some(db.nextComment));
    CommentDeleteUsers(db, a.db, b.db, caller, m, content, now);
    CommentDeleteRows(db, a.db, b.db, caller, m, content, now);
    CommentDeleteMemories(db, a.db, b.db, caller, m, content, now);
    CommentDeleteNotifications(db, a.db, b.db, caller, m, content, now);
  }
}
