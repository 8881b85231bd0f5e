/**
 * The comment handlers (controllers/commentController.js) over the Comment
 * collection. Each handler runs its checks in a fixed order and answers the
 * first failing one; the Event collection is read-only here and is passed in.
 */
module CommentController {
  import opened Common
  import opened JsString
  import opened EventModel
  import opened UserModel
  import opened CommentModel

  /**
   * The content checks shared by create, edit and reply (`noun` is "Comment" or
   * "Reply"): missing or blank content, then more than 500 code units before
   * trimming; accepted content is answered trimmed.
   */
  function ValidateContent(content: Option<string>, noun: string): (r: Result<string>)
    ensures r.Ok? <==> content.Some? && !AllWhiteSpace(content.value) && Utf16Length(content.value) <= MaxContentLength
    ensures r.Ok? ==> r.value == Trim(content.value) && ValidContent(r.value)
    ensures content.None? || AllWhiteSpace(content.value) ==> r == Err(HttpError(BadRequest, noun + " content is required"))
    ensures r.Err? ==> r.error.status == BadRequest
  {
    if content.None? || |Trim(content.value)| == 0 then
      Err(HttpError(BadRequest, noun + " content is required"))
    else if Utf16Length(content.value) > MaxContentLength then
      Err(HttpError(BadRequest, noun + " must be 500 characters or less"))
    else
      TrimShortens(content.value);
      Ok(Trim(content.value))
  }

  /** `likes.indexOf(u)`: the first position holding `u`, or -1. */
  function IndexOf(s: seq<UserId>, u: UserId): (i: int)
    ensures -1 <= i < |s|
    ensures i == -1 <==> u !in s
    ensures i >= 0 ==> s[i] == u && u !in s[..i]
  {
    if s == [] then -1
    else if s[0] == u then 0
    else
      var j := IndexOf(s[1..], u);
      assert j >= 0 ==> s[..j + 1] == [s[0]] + s[1..][..j];
      if j == -1 then -1 else j + 1
  }

  /**
   * The like list after a toggle by `u`: `splice` at the index of `u` when it is
   * there, `push` otherwise. The caller's membership flips, nobody else's changes.
   */
  function ToggledLikes(likes: seq<UserId>, u: UserId): (r: seq<UserId>)
    ensures u !in likes ==> r == likes + [u]
    ensures u in likes ==> |r| == |likes| - 1 && multiset(r) == multiset(likes) - multiset{u}
    ensures forall v :: v != u ==> (v in r <==> v in likes)
    ensures Distinct(likes) ==> Distinct(r) && (u in r <==> u !in likes)
  {
    var i := IndexOf(likes, u);
    if i > -1 then
      RemoveAt(likes, i);
      likes[..i] + likes[i + 1..]
    else
      assert forall k :: 0 <= k < |likes| ==> (likes + [u])[k] == likes[k];
      likes + [u]
  }

  /** Removing position `i` drops one occurrence of `s[i]` and keeps every other value. */
  lemma RemoveAt(s: seq<UserId>, i: nat)
    requires i < |s|
    ensures var r := s[..i] + s[i + 1..];
      && |r| == |s| - 1
      && multiset(r) == multiset(s) - multiset{s[i]}
      && (forall v :: v != s[i] ==> (v in r <==> v in s))
      && (Distinct(s) ==> Distinct(r) && s[i] !in r)
  {
    RemoveAtCount(s, i);
    RemoveAtShift(s, i);
    if Distinct(s) {
      RemoveAtDistinct(s, i);
    }
  }

  lemma RemoveAtCount(s: seq<UserId>, i: nat)
    requires i < |s|
    ensures multiset(s[..i] + s[i + 1..]) == multiset(s) - multiset{s[i]}
  {
    assert s == s[..i] + [s[i]] + s[i + 1..];
  }

  /** Positions before `i` keep their element; positions after it move one place down. */
  lemma RemoveAtShift(s: seq<UserId>, i: nat)
    requires i < |s|
    ensures |s[..i] + s[i + 1..]| == |s| - 1
    ensures forall k :: 0 <= k < i ==> (s[..i] + s[i + 1..])[k] == s[k]
    ensures forall k :: i < k < |s| ==> (s[..i] + s[i + 1..])[k - 1] == s[k]
    ensures forall v :: v != s[i] ==> (v in s[..i] + s[i + 1..] <==> v in s)
  {
    var r := s[..i] + s[i + 1..];
    forall v | v != s[i] && v in s
      ensures v in r
    {
      var k :| 0 <= k < |s| && s[k] == v;
      assert r[if k < i then k else k - 1] == v;
    }
  }

  lemma RemoveAtDistinct(s: seq<UserId>, i: nat)
    requires i < |s| && Distinct(s)
    ensures Distinct(s[..i] + s[i + 1..]) && s[i] !in s[..i] + s[i + 1..]
  {
    RemoveAtShift(s, i);
  }

  /** Liking then unliking restores the list; unliking then liking restores it up to order (the like moves to the end). */
  lemma ToggleTwice(likes: seq<UserId>, u: UserId)
    ensures u !in likes ==> ToggledLikes(ToggledLikes(likes, u), u) == likes
    ensures Distinct(likes) ==> multiset(ToggledLikes(ToggledLikes(likes, u), u)) == multiset(likes)
  {
    if u !in likes {
      var once := likes + [u];
      assert IndexOf(once, u) == |likes| by {
        assert once[|likes|] == u;
        assert once[..|likes|] == likes;
      }
      assert once[..|likes|] + once[|likes| + 1..] == likes;
    } else if Distinct(likes) {
      var once := ToggledLikes(likes, u);
      assert u !in once;
      assert multiset(once + [u]) == multiset(once) + multiset{u};
    }
  }

  /** What `toggleLike` answers: whether the caller now likes the comment, and the new count. */
  datatype LikeStatus = LikeStatus(isLiked: bool, likesCount: nat)

  /**
   * The moderation check of pin and moderate-delete: admins pass; otherwise the
   * comment's event must exist and be created by the caller. A missing event makes
   * `event.createdBy` throw, which the handler answers with a 500.
   */
  function ModerationCheck(events: map<EventId, Event>, c: Comment, caller: UserId, role: Role,
                           deniedMessage: string, failedMessage: string): (r: Option<HttpError>)
    ensures r.None? <==> role == Admin || (c.eventId in events && events[c.eventId].createdBy == caller)
    ensures r.Some? && c.eventId in events ==> r.value == HttpError(Forbidden, deniedMessage)
    ensures r.Some? && c.eventId !in events ==> r.value == HttpError(ServerError, failedMessage)
  {
    if role == Admin then None
    else if c.eventId !in events then Some(HttpError(ServerError, failedMessage))
    else if events[c.eventId].createdBy != caller then Some(HttpError(Forbidden, deniedMessage))
    else None
  }

  /** `createComment`: 404 for an unknown event, then the content checks; a new top-level comment otherwise. */
  method CreateComment(store: CommentStore, events: map<EventId, Event>, eventId: EventId, caller: UserId,
                       content: Option<string>, now: int)
    returns (r: Result<CommentId>)
    requires store.Valid()
    modifies store
    ensures store.Valid()
    ensures eventId !in events ==> r == Err(HttpError(NotFound, "Event not found"))
    ensures eventId in events && ValidateContent(content, "Comment").Err? ==>
      r == Err(ValidateContent(content, "Comment").error)
    ensures r.Err? ==> store.comments == old(store.comments) && store.nextId == old(store.nextId)
    ensures eventId in events && ValidateContent(content, "Comment").Ok? ==> r.Ok? && store.nextId == old(store.nextId) + 1
    ensures r.Ok? ==>
      && eventId in events && ValidateContent(content, "Comment").Ok?
      && r.value !in old(store.comments)
      && store.comments == old(store.comments)[r.value := NewComment(eventId, caller, ValidateContent(content, "Comment").value, None, now)]
  {
    if eventId !in events {
      return Err(HttpError(NotFound, "Event not found"));
    }
    var checked := ValidateContent(content, "Comment");
    if checked.Err? {
      return Err(checked.error);
    }
    var id := store.Insert(NewComment(eventId, caller, checked.value, None, now));
    r := Ok(id);
  }

  /** `editComment`: 404, then 400 for a deleted comment, then 403 for a non-owner, then the content checks; only `content` changes. */
  method EditComment(store: CommentStore, id: CommentId, caller: UserId, content: Option<string>)
    returns (r: Result<Comment>)
    requires store.Valid()
    modifies store
    ensures store.Valid() && store.nextId == old(store.nextId)
    ensures id !in old(store.comments) ==> r == Err(HttpError(NotFound, "Comment not found"))
    ensures id in old(store.comments) ==>
      var c := old(store.comments)[id];
      var checked := ValidateContent(content, "Comment");
      if c.isDeleted then r == Err(HttpError(BadRequest, "Cannot edit deleted comment"))
      else if c.userId != caller then r == Err(HttpError(Forbidden, "You can only edit your own comments"))
      else if checked.Err? then r == Err(checked.error)
      else r == Ok(c.(content := checked.value)) && store.comments == old(store.comments)[id := r.value]
    ensures r.Err? ==> store.comments == old(store.comments)
  {
    if id !in store.comments {
      return Err(HttpError(NotFound, "Comment not found"));
    }
    var c := store.comments[id];
    if c.isDeleted {
      return Err(HttpError(BadRequest, "Cannot edit deleted comment"));
    }
    if c.userId != caller {
      return Err(HttpError(Forbidden, "You can only edit your own comments"));
    }
    var checked := ValidateContent(content, "Comment");
    if checked.Err? {
      return Err(checked.error);
    }
    var edited := c.(content := checked.value);
    store.Replace(id, edited);
    r := Ok(edited);
  }

  /** `deleteComment`: 404, then 403 for a non-owner; a soft delete that only sets `isDeleted`, allowed again on a deleted comment. */
  method DeleteComment(store: CommentStore, id: CommentId, caller: UserId)
    returns (r: Result<()>)
    requires store.Valid()
    modifies store
    ensures store.Valid() && store.nextId == old(store.nextId)
    ensures id !in old(store.comments) ==> r == Err(HttpError(NotFound, "Comment not found"))
    ensures id in old(store.comments) && old(store.comments)[id].userId != caller ==>
      r == Err(HttpError(Forbidden, "You can only delete your own comments"))
    ensures id in old(store.comments) && old(store.comments)[id].userId == caller ==>
      && r == Ok(())
      && store.comments == old(store.comments)[id := old(store.comments)[id].(isDeleted := true)]
    ensures r.Err? ==> store.comments == old(store.comments)
  {
    if id !in store.comments {
      return Err(HttpError(NotFound, "Comment not found"));
    }
    var c := store.comments[id];
    if c.userId != caller {
      return Err(HttpError(Forbidden, "You can only delete your own comments"));
    }
    store.Replace(id, c.(isDeleted := true));
    r := Ok(());
  }

  /** `toggleLike`: 404, then 400 for a deleted comment; flips the caller's like and reports the new state. */
  method ToggleLike(store: CommentStore, id: CommentId, caller: UserId)
    returns (r: Result<LikeStatus>)
    requires store.Valid()
    modifies store
    ensures store.Valid() && store.nextId == old(store.nextId)
    ensures id !in old(store.comments) ==> r == Err(HttpError(NotFound, "Comment not found"))
    ensures id in old(store.comments) && old(store.comments)[id].isDeleted ==>
      r == Err(HttpError(BadRequest, "Cannot like deleted comment"))
    ensures id in old(store.comments) && !old(store.comments)[id].isDeleted ==> r.Ok?
    ensures r.Err? ==> store.comments == old(store.comments)
    ensures r.Ok? ==>
      var c := old(store.comments)[id];
      var likes := ToggledLikes(c.likes, caller);
      && id in old(store.comments) && !c.isDeleted
      && store.comments == old(store.comments)[id := c.(likes := likes)]
      && r.value == LikeStatus(caller in likes, |likes|)
      && r.value.isLiked == (caller !in c.likes)
  {
    if id !in store.comments {
      return Err(HttpError(NotFound, "Comment not found"));
    }
    var c := store.comments[id];
    if c.isDeleted {
      return Err(HttpError(BadRequest, "Cannot like deleted comment"));
    }
    var likeIndex := IndexOf(c.likes, caller);
    var likes := ToggledLikes(c.likes, caller);
    store.Replace(id, c.(likes := likes));
    r := Ok(LikeStatus(likeIndex == -1, |likes|));
  }

  /**
   * `replyToComment`: 404 for an unknown parent, 400 for a deleted parent, 400
   * for a parent that is itself a reply, then the content checks. The reply
   * takes the parent's event, so threads stay one level deep.
   */
  method ReplyToComment(store: CommentStore, parentId: CommentId, caller: UserId, content: Option<string>, now: int)
    returns (r: Result<CommentId>)
    requires store.Valid()
    modifies store
    ensures store.Valid()
    ensures parentId !in old(store.comments) ==> r == Err(HttpError(NotFound, "Parent comment not found"))
    ensures parentId in old(store.comments) ==>
      var parent := old(store.comments)[parentId];
      var checked := ValidateContent(content, "Reply");
      if parent.isDeleted then r == Err(HttpError(BadRequest, "Cannot reply to deleted comment"))
      else if parent.parentId.Some? then
        r == Err(HttpError(BadRequest, "Cannot reply to a reply. Please reply to the parent comment."))
      else if checked.Err? then r == Err(checked.error)
      else
        && r.Ok? && r.value !in old(store.comments)
        && store.comments == old(store.comments)[r.value := NewComment(parent.eventId, caller, checked.value, Some(parentId), now)]
    ensures r.Err? ==> store.comments == old(store.comments) && store.nextId == old(store.nextId)
  {
    if parentId !in store.comments {
      return Err(HttpError(NotFound, "Parent comment not found"));
    }
    var parent := store.comments[parentId];
    if parent.isDeleted {
      return Err(HttpError(BadRequest, "Cannot reply to deleted comment"));
    }
    if parent.parentId.Some? {
      return Err(HttpError(BadRequest, "Cannot reply to a reply. Please reply to the parent comment."));
    }
    var checked := ValidateContent(content, "Reply");
    if checked.Err? {
      return Err(checked.error);
    }
    var reply := NewComment(parent.eventId, caller, checked.value, Some(parentId), now);
    var id := store.Insert(reply);
    r := Ok(id);
  }

  /** `reportComment`: 404, 400 for a deleted comment, 400 for a repeat reporter; otherwise records the reporter and flags the comment. */
  method ReportComment(store: CommentStore, id: CommentId, caller: UserId)
    returns (r: Result<()>)
    requires store.Valid()
    modifies store
    ensures store.Valid() && store.nextId == old(store.nextId)
    ensures id !in old(store.comments) ==> r == Err(HttpError(NotFound, "Comment not found"))
    ensures id in old(store.comments) ==>
      var c := old(store.comments)[id];
      if c.isDeleted then r == Err(HttpError(BadRequest, "Cannot report deleted comment"))
      else if caller in c.reportedBy then r == Err(HttpError(BadRequest, "You have already reported this comment"))
      else r == Ok(()) && store.comments == old(store.comments)[id := c.(reportedBy := c.reportedBy + [caller], isReported := true)]
    ensures r.Err? ==> store.comments == old(store.comments)
  {
    if id !in store.comments {
      return Err(HttpError(NotFound, "Comment not found"));
    }
    var c := store.comments[id];
    if c.isDeleted {
      return Err(HttpError(BadRequest, "Cannot report deleted comment"));
    }
    if caller in c.reportedBy {
      return Err(HttpError(BadRequest, "You have already reported this comment"));
    }
    var reported := c.(reportedBy := c.reportedBy + [caller], isReported := true);
    assert forall k :: 0 <= k < |c.reportedBy| ==> reported.reportedBy[k] == c.reportedBy[k];
    store.Replace(id, reported);
    r := Ok(());
  }

  /** `pinComment`: 404, then the moderation check; flips `isPinned` (deleted comments included) and answers the new value. */
  method PinComment(store: CommentStore, events: map<EventId, Event>, id: CommentId, caller: UserId, role: Role)
    returns (r: Result<bool>)
    requires store.Valid()
    modifies store
    ensures store.Valid() && store.nextId == old(store.nextId)
    ensures id !in old(store.comments) ==> r == Err(HttpError(NotFound, "Comment not found"))
    ensures id in old(store.comments) ==>
      var c := old(store.comments)[id];
      var denied := ModerationCheck(events, c, caller, role,
        "Only event organizers and admins can pin comments", "Failed to pin comment");
      if denied.Some? then r == Err(denied.value)
      else r == Ok(!c.isPinned) && store.comments == old(store.comments)[id := c.(isPinned := !c.isPinned)]
    ensures r.Err? ==> store.comments == old(store.comments)
  {
    if id !in store.comments {
      return Err(HttpError(NotFound, "Comment not found"));
    }
    var c := store.comments[id];
    var denied := ModerationCheck(events, c, caller, role,
      "Only event organizers and admins can pin comments", "Failed to pin comment");
    if denied.Some? {
      return Err(denied.value);
    }
    store.Replace(id, c.(isPinned := !c.isPinned));
    r := Ok(!c.isPinned);
  }

  /** The collection after a moderation delete of `target`: the comment and every comment naming it as parent are marked deleted. */
  function CascadeDeleted(comments: map<CommentId, Comment>, target: CommentId): (r: map<CommentId, Comment>)
    ensures r.Keys == comments.Keys
    ensures forall k :: k in r ==> r[k] == comments[k].(isDeleted := r[k].isDeleted)
    ensures forall k :: k in r ==> (r[k].isDeleted <==> comments[k].isDeleted || k == target || comments[k].parentId == Some(target))
  {
    map k | k in comments ::
      if k == target || comments[k].parentId == Some(target) then comments[k].(isDeleted := true) else comments[k]
  }

  /** The bulk update of `moderateDelete`: every comment whose parent is `parent` is marked deleted. */
  function MarkReplies(comments: map<CommentId, Comment>, parent: CommentId): (r: map<CommentId, Comment>)
    ensures r.Keys == comments.Keys
    ensures forall k :: k in r ==> r[k] == comments[k].(isDeleted := r[k].isDeleted)
    ensures forall k :: k in r ==> (r[k].isDeleted <==> comments[k].isDeleted || comments[k].parentId == Some(parent))
  {
    map k | k in comments ::
      if comments[k].parentId == Some(parent) then comments[k].(isDeleted := true) else comments[k]
  }

  /** Marking the target and then its replies, as the handler does in two writes, is the cascade. */
  lemma TwoWritesCascade(comments: map<CommentId, Comment>, target: CommentId)
    requires target in comments
    ensures MarkReplies(comments[target := comments[target].(isDeleted := true)], target) == CascadeDeleted(comments, target)
  {
  }

  /** Marking replies deleted only flips deletion flags, so the collection stays valid. */
  lemma MarkRepliesKeepsValid(comments: map<CommentId, Comment>, nextId: CommentId, parent: CommentId)
    requires ValidComments(comments, nextId)
    ensures ValidComments(MarkReplies(comments, parent), nextId)
  {
    var after := MarkReplies(comments, parent);
    forall id | id in after
      ensures id < nextId && ValidComment(after[id])
    {
      assert after[id] == comments[id].(isDeleted := after[id].isDeleted);
    }
  }

  /** The two writes of `moderateDelete`: the comment itself, then every reply to it. */
  method DeleteThread(store: CommentStore, id: CommentId)
    requires store.Valid() && id in store.comments
    modifies store
    ensures store.Valid() && store.nextId == old(store.nextId)
    ensures store.comments == CascadeDeleted(old(store.comments), id)
  {
    TwoWritesCascade(store.comments, id);
    store.Replace(id, store.comments[id].(isDeleted := true));
    MarkRepliesKeepsValid(store.comments, store.nextId, id);
    store.comments := MarkReplies(store.comments, id);
  }

  /**
   * `moderateDelete`: 404, then the moderation check; marks the comment deleted,
   * then bulk-marks every comment whose parent it is.
   */
  method ModerateDelete(store: CommentStore, events: map<EventId, Event>, id: CommentId, caller: UserId, role: Role)
    returns (r: Result<()>)
    requires store.Valid()
    modifies store
    ensures store.Valid() && store.nextId == old(store.nextId)
    ensures id !in old(store.comments) ==> r == Err(HttpError(NotFound, "Comment not found"))
    ensures id in old(store.comments) ==>
      var denied := ModerationCheck(events, old(store.comments)[id], caller, role,
        "Only event organizers and admins can moderate comments", "Failed to delete comment");
      if denied.Some? then r == Err(denied.value)
      else r == Ok(()) && store.comments == CascadeDeleted(old(store.comments), id)
    ensures r.Err? ==> store.comments == old(store.comments)
  {
    if id !in store.comments {
      return Err(HttpError(NotFound, "Comment not found"));
    }
    var c := store.comments[id];
    var denied := ModerationCheck(events, c, caller, role,
      "Only event organizers and admins can moderate comments", "Failed to delete comment");
    if denied.Some? {
      return Err(denied.value);
    }
    DeleteThread(store, id);
    r := Ok(());
  }

  /** One thread of `getComments`: the top-level comment, its visible replies, and the like summary for the viewer. */
  datatype Thread = Thread(comment: Comment, replies: set<CommentId>, likesCount: nat, isLiked: bool)

  /** The top-level filter of `getComments`: this event, not deleted, no parent. */
  predicate ListedTopLevel(c: Comment, eventId: EventId) {
    c.eventId == eventId && !c.isDeleted && c.parentId.None?
  }

  function VisibleReplies(comments: map<CommentId, Comment>, id: CommentId): set<CommentId> {
    set k | k in comments && comments[k].parentId == Some(id) && !comments[k].isDeleted
  }

  /**
   * `getComments` without its sort: 404 for an unknown event; otherwise every
   * visible top-level comment of the event, each with its visible replies, its
   * like count and whether the (optional) viewer likes it.
   */
  function GetComments(comments: map<CommentId, Comment>, events: map<EventId, Event>, eventId: EventId,
                       viewer: Option<UserId>): (r: Result<map<CommentId, Thread>>)
    ensures r.Err? <==> eventId !in events
    ensures r.Err? ==> r.error == HttpError(NotFound, "Event not found")
    ensures r.Ok? ==> forall id :: id in r.value <==> id in comments && ListedTopLevel(comments[id], eventId)
    ensures r.Ok? ==> forall id :: id in r.value ==>
      && r.value[id].comment == comments[id]
      && r.value[id].likesCount == |comments[id].likes|
      && (r.value[id].isLiked <==> viewer.Some? && viewer.value in comments[id].likes)
      && (forall k :: k in r.value[id].replies <==> k in comments && comments[k].parentId == Some(id) && !comments[k].isDeleted)
  {
    if eventId !in events then Err(HttpError(NotFound, "Event not found"))
    else
      Ok(map id | id in comments && ListedTopLevel(comments[id], eventId) ::
        Thread(comments[id], VisibleReplies(comments, id), |comments[id].likes|,
               viewer.Some? && viewer.value in comments[id].likes))
  }

  /**
   * No comment is listed twice: a listed reply is never listed as a top-level
   * thread, nor under two threads; a reply whose parent is deleted is listed nowhere.
   */
  lemma ListedOnce(comments: map<CommentId, Comment>, events: map<EventId, Event>, eventId: EventId, viewer: Option<UserId>)
    requires GetComments(comments, events, eventId, viewer).Ok?
    ensures var threads := GetComments(comments, events, eventId, viewer).value;
      && (forall a, k :: a in threads && k in threads[a].replies ==> k !in threads)
      && (forall a, b, k :: a in threads && b in threads && k in threads[a].replies && k in threads[b].replies ==> a == b)
      && (forall k :: (k in comments && comments[k].parentId.Some? && comments[k].parentId.value in comments
            && comments[comments[k].parentId.value].isDeleted) ==>
            forall a :: a in threads ==> k !in threads[a].replies)
  {
  }

  /** After a moderation delete, neither the comment nor any reply to it is listed, and no other comment changes. */
  lemma ModerationHidesThread(comments: map<CommentId, Comment>, events: map<EventId, Event>, eventId: EventId,
                              viewer: Option<UserId>, target: CommentId)
    requires eventId in events
    ensures var after := CascadeDeleted(comments, target);
      var threads := GetComments(after, events, eventId, viewer).value;
      && target !in threads
      && (forall a, k :: a in threads && k in threads[a].replies ==> after[k].parentId != Some(target))
      && (forall k :: k in comments && k != target && comments[k].parentId != Some(target) ==> after[k] == comments[k])
  {
  }

  /**
   * `getReportedComments` without its sort: reported, not deleted comments; an
   * organizer sees only those on events they created. No other role is filtered.
   */
  function GetReportedComments(comments: map<CommentId, Comment>, events: map<EventId, Event>,
                               caller: UserId, role: Role): (r: set<CommentId>)
    ensures forall k :: k in r <==>
      && k in comments && comments[k].isReported && !comments[k].isDeleted
      && (role == Organizer ==> comments[k].eventId in events && events[comments[k].eventId].createdBy == caller)
  {
    set k | k in comments && comments[k].isReported && !comments[k].isDeleted
      && (role == Organizer ==> comments[k].eventId in events && events[comments[k].eventId].createdBy == caller)
  }

  /** An organizer sees a subset of what an admin sees; a student is not filtered and sees what an admin sees. */
  lemma ReportedScopes(comments: map<CommentId, Comment>, events: map<EventId, Event>, caller: UserId)
    ensures GetReportedComments(comments, events, caller, Organizer) <= GetReportedComments(comments, events, caller, Admin)
    ensures GetReportedComments(comments, events, caller, Student) == GetReportedComments(comments, events, caller, Admin)
  {
  }

  /** A student who organized nothing is shown a report on someone else's event. */
  lemma StudentSeesForeignReports()
    ensures var events := map[1 := NewEvent("Hackathon", "Coding contest", 0, "Main hall", Tech, 7)];
      var comments := map[0 := Comment(1, 8, "spam", None, [], false, true, [9], false, 0)];
      && 0 in GetReportedComments(comments, events, 5, Student)
      && events[comments[0].eventId].createdBy != 5
  {
  }

  /**
   * The reported-comments listing restricted to the roles the moderation routes
   * are meant for: students are refused, organizers see reports on their own
   * events, admins see every report.
   */
  function GetReportedCommentsForModerators(comments: map<CommentId, Comment>, events: map<EventId, Event>,
                                            caller: UserId, role: Role): (r: Result<set<CommentId>>)
    ensures r.Err? <==> role == Student
    ensures r.Err? ==> r.error.status == Forbidden
    ensures r.Ok? ==> forall k :: k in r.value ==>
      && k in comments && comments[k].isReported && !comments[k].isDeleted
      && (role == Admin || (comments[k].eventId in events && events[comments[k].eventId].createdBy == caller))
    ensures r.Ok? ==> forall k :: (&& k in comments && comments[k].isReported && !comments[k].isDeleted
      && (role == Admin || (comments[k].eventId in events && events[comments[k].eventId].createdBy == caller))) ==> k in r.value
  {
    if role == Student then Err(HttpError(Forbidden, "Only event organizers and admins can view reported comments"))
    else Ok(GetReportedComments(comments, events, caller, role))
  }
}
