/** The Comment document (models/Comment.js) and the Comment collection. */
module CommentModel {
  import opened Common
  import opened JsString

  const MaxContentLength: nat := 500

  /** The schema's bounds on `content`: trimmed, between 1 and 500 UTF-16 code units. */
  predicate ValidContent(s: string) {
    IsTrimmed(s) && 1 <= Utf16Length(s) <= MaxContentLength
  }

  /**
   * A comment document. `parentId == None` is the schema's `null`: a top-level
   * comment; `likes` and `reportedBy` are lists of user references.
   */
  datatype Comment = Comment(
    eventId: EventId,
    userId: UserId,
    content: string,
    parentId: Option<CommentId>,
    likes: seq<UserId>,
    isPinned: bool,
    isReported: bool,
    reportedBy: seq<UserId>,
    isDeleted: bool,
    createdAt: int)

  predicate Distinct(s: seq<UserId>) {
    forall i, j :: 0 <= i < j < |s| ==> s[i] != s[j]
  }

  /** What every stored comment satisfies: valid content, duplicate-free lists, and the report flag set exactly when someone reported. */
  predicate ValidComment(c: Comment) {
    && ValidContent(c.content)
    && Distinct(c.likes)
    && Distinct(c.reportedBy)
    && c.isReported == (c.reportedBy != [])
  }

  /** A new comment document: no likes, no reports, neither pinned nor deleted. */
  function NewComment(eventId: EventId, userId: UserId, content: string,
                      parentId: Option<CommentId>, now: int): (c: Comment)
    ensures c.likes == [] && c.reportedBy == []
    ensures !c.isPinned && !c.isReported && !c.isDeleted
    ensures c.eventId == eventId && c.userId == userId && c.parentId == parentId
    ensures c.content == content && c.createdAt == now
    ensures ValidComment(c) <==> ValidContent(content)
  {
    Comment(eventId, userId, content, parentId, [], false, false, [], false, now)
  }

  /** Threads are one level deep: a reply's parent is stored and is itself top-level. */
  predicate ThreadDepthAtMostOne(comments: map<CommentId, Comment>) {
    forall id :: id in comments && comments[id].parentId.Some? ==>
      comments[id].parentId.value in comments && comments[comments[id].parentId.value].parentId.None?
  }

  /** The `replyCount` virtual: how many stored comments, deleted ones included, name `id` as parent. */
  function ReplyCount(comments: map<CommentId, Comment>, id: CommentId): (n: nat)
    ensures n <= |comments|
    ensures n == 0 <==> forall k :: k in comments ==> comments[k].parentId != Some(id)
  {
    var replies := set k | k in comments && comments[k].parentId == Some(id);
    assert replies <= comments.Keys;
    assert forall k :: k in comments && comments[k].parentId == Some(id) ==> k in replies;
    CardinalityMono(replies, comments.Keys);
    |replies|
  }

  lemma CardinalityMono<T>(a: set<T>, b: set<T>)
    requires a <= b
    ensures |a| <= |b|
  {
    assert b == a + (b - a);
  }

  predicate ValidComments(comments: map<CommentId, Comment>, nextId: CommentId) {
    && (forall id :: id in comments ==> id < nextId && ValidComment(comments[id]))
    && ThreadDepthAtMostOne(comments)
  }

  /** Storing a valid comment under the next fresh id keeps the collection valid, provided a reply's parent is a stored top-level comment. */
  lemma InsertKeepsValid(comments: map<CommentId, Comment>, nextId: CommentId, c: Comment)
    requires ValidComments(comments, nextId)
    requires ValidComment(c)
    requires c.parentId.Some? ==> c.parentId.value in comments && comments[c.parentId.value].parentId.None?
    ensures nextId !in comments
    ensures ValidComments(comments[nextId := c], nextId + 1)
  {
    var after := comments[nextId := c];
    forall id | id in after && after[id].parentId.Some?
      ensures after[id].parentId.value in after && after[after[id].parentId.value].parentId.None?
    {
      var p := after[id].parentId.value;
      assert p in comments;
      assert p != nextId;
    }
  }

  /** Replacing a stored comment by a valid one with the same parent keeps the collection valid. */
  lemma ReplaceKeepsValid(comments: map<CommentId, Comment>, nextId: CommentId, id: CommentId, c: Comment)
    requires ValidComments(comments, nextId)
    requires id in comments && ValidComment(c) && c.parentId == comments[id].parentId
    ensures ValidComments(comments[id := c], nextId)
  {
    var after := comments[id := c];
    forall k | k in after && after[k].parentId.Some?
      ensures after[k].parentId.value in after && after[after[k].parentId.value].parentId.None?
    {
      var p := after[k].parentId.value;
      assert p in comments && comments[p].parentId.None?;
    }
  }

  /** The Comment collection; `nextId` stands for the generator of fresh document ids. */
  class CommentStore {
    var comments: map<CommentId, Comment>
    var nextId: CommentId

    ghost predicate Valid()
      reads this
    {
      ValidComments(comments, nextId)
    }

    constructor (initial: map<CommentId, Comment>, next: CommentId)
      requires ValidComments(initial, next)
      ensures Valid() && comments == initial && nextId == next
    {
      comments := initial;
      nextId := next;
    }

    /** Saves `c` over the stored comment `id`, which keeps its place in its thread. */
    method Replace(id: CommentId, c: Comment)
      requires Valid() && id in comments
      requires ValidComment(c) && c.parentId == comments[id].parentId
      modifies this
      ensures Valid() && comments == old(comments)[id := c] && nextId == old(nextId)
    {
      ReplaceKeepsValid(comments, nextId, id, c);
      comments := comments[id := c];
    }

    /** Stores `c` under the next fresh id, which it returns; a reply must name a stored top-level comment. */
    method Insert(c: Comment) returns (id: CommentId)
      requires Valid() && ValidComment(c)
      requires c.parentId.Some? ==> c.parentId.value in comments && comments[c.parentId.value].parentId.None?
      modifies this
      ensures id == old(nextId) && id !in old(comments)
      ensures Valid() && comments == old(comments)[id := c] && nextId == old(nextId) + 1
    {
      id := nextId;
      InsertKeepsValid(comments, id, c);
      comments := comments[id := c];
      nextId := nextId + 1;
    }
  }
}
