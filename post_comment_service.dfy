/** `PostCommentService`: creating, editing and deleting comments and replies. Each
    operation is guarded before any write and keeps the post's `comments_count` and the
    parent's `replies_count` in step with the rows they count. */
module PostComments {
  import opened Common
  import opened Store
  import opened Posts

  const CommentNotFound := "Comentário inválido"
  const NotYourComment := "Não pode alterar um comentário que não é seu"
  const WrongPost := "Id do post é inválido"

  /** The parent a create request names: `parent_id` is only looked up when truthy. */
  function RequestedParent(parentId: Option<string>): (r: Option<string>)
    ensures r.Some? <==> IsTruthy(parentId)
    ensures r.Some? ==> r == parentId
  {
    if IsTruthy(parentId) then parentId else None
  }

  /** The state after saving the new comment `c` and counting it on its parent. */
  function CommentsWithReply(comments: map<string, CommentRecord>, c: CommentRecord): map<string, CommentRecord> {
    BumpParent(comments[c.id := c], c.parent_id, Increment)
  }

  /** The writes `createPostComment` issues for the new row `c`, in order: the insert, the
      post's raised `comments_count`, and the parent's raised `replies_count` when there is
      a parent. */
  function CreateWrites(posts: map<string, PostRecord>, comments: map<string, CommentRecord>, c: CommentRecord)
    : seq<Write>
    requires c.post_id in posts
    requires c.parent_id.Some? ==> c.parent_id.value in comments
  {
    [CommentInserted(c), PostCounterSet(c.post_id, CommentsCount, posts[c.post_id].comments_count + 1)] +
    (if c.parent_id.Some? then [RepliesCountSet(c.parent_id.value, comments[c.parent_id.value].replies_count + 1)] else [])
  }

  /** The state after uncounting comment `id` on its parent and removing it. */
  function CommentsWithout(comments: map<string, CommentRecord>, id: string): map<string, CommentRecord>
    requires id in comments
  {
    WithoutComments(BumpParent(comments, comments[id].parent_id, Decrement), {id})
  }

  /** Saving a new comment on an existing post, under an existing parent on that post,
      keeps the schema's guarantees and keeps replies within their post. */
  lemma CommentInsertKeepsIntegrity(
    posts: map<string, PostRecord>, comments: map<string, CommentRecord>, likes: set<LikeKey>, c: CommentRecord)
    requires WellFormedIn(posts, comments, likes) && ThreadsIn(comments)
    requires c.id != "" && c.id !in comments && c.commented_by_id != "" && c.post_id in posts
    requires c.parent_id.Some? ==> c.parent_id.value in comments && comments[c.parent_id.value].post_id == c.post_id
    ensures var posts' := posts[c.post_id := Recount(posts[c.post_id], CommentsCount, Increment)];
            WellFormedIn(posts', CommentsWithReply(comments, c), likes) && ThreadsIn(CommentsWithReply(comments, c))
  {
    var posts' := posts[c.post_id := Recount(posts[c.post_id], CommentsCount, Increment)];
    var inserted := comments[c.id := c];
    assert WellFormedIn(posts', inserted, likes) && ThreadsIn(inserted);
    LinksKeepIntegrity(posts', inserted, CommentsWithReply(comments, c), likes);
  }

  /** Integrity only looks at ids, owners, posts and parents: a table that differs from
      another only in other columns is as sound. */
  lemma LinksKeepIntegrity(
    posts: map<string, PostRecord>, a: map<string, CommentRecord>, b: map<string, CommentRecord>, likes: set<LikeKey>)
    requires WellFormedIn(posts, a, likes) && ThreadsIn(a)
    requires b.Keys == a.Keys
    requires forall x :: x in b ==>
      && b[x].id == a[x].id && b[x].post_id == a[x].post_id
      && b[x].parent_id == a[x].parent_id && b[x].commented_by_id == a[x].commented_by_id
    ensures WellFormedIn(posts, b, likes) && ThreadsIn(b)
  {
    assert ParentsExist(b);
  }

  /** Counting a new comment once on its post keeps every `comments_count` right. */
  lemma CommentInsertKeepsCommentCounts(
    posts: map<string, PostRecord>, comments: map<string, CommentRecord>, c: CommentRecord)
    requires CommentCountsIn(posts, comments)
    requires c.id !in comments && c.post_id in posts
    ensures var posts' := posts[c.post_id := Recount(posts[c.post_id], CommentsCount, Increment)];
            CommentCountsIn(posts', CommentsWithReply(comments, c))
  {
    var posts' := posts[c.post_id := Recount(posts[c.post_id], CommentsCount, Increment)];
    var inserted := comments[c.id := c];
    forall q | q in posts'
      ensures posts'[q].comments_count == |CommentsOf(CommentsWithReply(comments, c), q)|
    {
      CommentsOfInsert(comments, c, q);
      assert CommentsOf(CommentsWithReply(comments, c), q) == CommentsOf(inserted, q);
    }
  }

  /** Counting a new reply once on its parent keeps every `replies_count` right; the new
      comment starts with none. */
  lemma CommentInsertKeepsReplyCounts(comments: map<string, CommentRecord>, c: CommentRecord)
    requires ReplyCountsIn(comments)
    requires ParentsExist(comments)
    requires c.id !in comments && c.replies_count == 0
    requires c.parent_id.Some? ==> c.parent_id.value in comments
    ensures ReplyCountsIn(CommentsWithReply(comments, c))
  {
    var inserted := comments[c.id := c];
    var after := CommentsWithReply(comments, c);
    forall q | q in after
      ensures after[q].replies_count == |RepliesOf(after, q)|
    {
      RepliesOfInsert(comments, c, q);
      assert RepliesOf(after, q) == RepliesOf(inserted, q);
      if q == c.id {
        assert RepliesOf(inserted, q) == {};
      }
    }
  }

  /** Removing a comment, with its replies losing their parent, keeps the schema's
      guarantees and keeps replies within their post. */
  lemma CommentRemovalKeepsIntegrity(
    posts: map<string, PostRecord>, comments: map<string, CommentRecord>, likes: set<LikeKey>, id: string)
    requires WellFormedIn(posts, comments, likes) && ThreadsIn(comments)
    requires id in comments
    ensures var posts' := posts[comments[id].post_id := Recount(posts[comments[id].post_id], CommentsCount, Decrement)];
            WellFormedIn(posts', CommentsWithout(comments, id), likes) && ThreadsIn(CommentsWithout(comments, id))
  {
    var posts' := posts[comments[id].post_id := Recount(posts[comments[id].post_id], CommentsCount, Decrement)];
    var bumped := BumpParent(comments, comments[id].parent_id, Decrement);
    assert WellFormedIn(posts', comments, likes);
    LinksKeepIntegrity(posts', comments, bumped, likes);
    DeleteRowKeepsIntegrity(posts', bumped, likes, id);
  }

  /** Deleting one comment row keeps the schema's guarantees (its replies become top-level
      comments) and keeps replies within their post. */
  lemma DeleteRowKeepsIntegrity(
    posts: map<string, PostRecord>, comments: map<string, CommentRecord>, likes: set<LikeKey>, id: string)
    requires WellFormedIn(posts, comments, likes) && ThreadsIn(comments)
    ensures WellFormedIn(posts, WithoutComments(comments, {id}), likes) && ThreadsIn(WithoutComments(comments, {id}))
  {
    var after := WithoutComments(comments, {id});
    forall x | x in after
      ensures x in comments && after[x].id == x && after[x].post_id == comments[x].post_id
      ensures after[x].commented_by_id == comments[x].commented_by_id
      ensures after[x].parent_id.Some? ==> after[x].parent_id == comments[x].parent_id && after[x].parent_id.value in after
    {
    }
  }

  /** With the counts right beforehand, the post of a removed comment counts at least one
      comment, and uncounting it once keeps every `comments_count` right. */
  lemma CommentRemovalKeepsCommentCounts(
    posts: map<string, PostRecord>, comments: map<string, CommentRecord>, id: string)
    requires CommentCountsIn(posts, comments)
    requires id in comments && comments[id].post_id in posts
    ensures posts[comments[id].post_id].comments_count >= 1
    ensures var posts' := posts[comments[id].post_id := Recount(posts[comments[id].post_id], CommentsCount, Decrement)];
            CommentCountsIn(posts', CommentsWithout(comments, id))
  {
    var c := comments[id];
    var bumped := BumpParent(comments, c.parent_id, Decrement);
    var posts' := posts[c.post_id := Recount(posts[c.post_id], CommentsCount, Decrement)];
    assert id in CommentsOf(comments, c.post_id);
    forall q | q in posts'
      ensures posts'[q].comments_count == |CommentsOf(CommentsWithout(comments, id), q)|
    {
      CommentsOfRemove(bumped, id, q);
      assert CommentsOf(bumped, q) == CommentsOf(comments, q);
    }
  }

  /** With the counts right beforehand, the parent of a removed reply counts at least one
      reply, and uncounting it once keeps every `replies_count` right. */
  lemma CommentRemovalKeepsReplyCounts(comments: map<string, CommentRecord>, id: string)
    requires ReplyCountsIn(comments)
    requires id in comments
    requires comments[id].parent_id.Some? ==> comments[id].parent_id.value in comments
    requires comments[id].parent_id != Some(id)
    ensures comments[id].parent_id.Some? ==> comments[comments[id].parent_id.value].replies_count >= 1
    ensures ReplyCountsIn(CommentsWithout(comments, id))
  {
    var c := comments[id];
    var bumped := BumpParent(comments, c.parent_id, Decrement);
    var after := CommentsWithout(comments, id);
    if c.parent_id.Some? {
      assert id in RepliesOf(comments, c.parent_id.value);
    }
    forall q | q in after
      ensures after[q].replies_count == |RepliesOf(after, q)|
    {
      RepliesOfRemove(bumped, id, q);
      assert RepliesOf(bumped, q) == RepliesOf(comments, q);
    }
  }

  /** Editing a comment's content changes no count and no link. */
  lemma ContentEditKeepsInvariants(
    posts: map<string, PostRecord>, comments: map<string, CommentRecord>, likes: set<LikeKey>, id: string, content: string)
    requires id in comments
    ensures var comments' := comments[id := comments[id].(content := content)];
            && (WellFormedIn(posts, comments, likes) ==> WellFormedIn(posts, comments', likes))
            && (ThreadsIn(comments) ==> ThreadsIn(comments'))
            && (CountersMatchIn(posts, comments, likes) ==> CountersMatchIn(posts, comments', likes))
  {
    var comments' := comments[id := comments[id].(content := content)];
    forall q
      ensures CommentsOf(comments', q) == CommentsOf(comments, q)
      ensures RepliesOf(comments', q) == RepliesOf(comments, q)
    {
      CommentsOfReplace(comments, id, comments'[id], q);
    }
  }

  /** Saving a new comment keeps every invariant. */
  lemma CommentInsertKeepsInvariants(
    posts: map<string, PostRecord>, comments: map<string, CommentRecord>, likes: set<LikeKey>, c: CommentRecord)
    requires WellFormedIn(posts, comments, likes) && ThreadsIn(comments)
    requires c.id != "" && c.id !in comments && c.commented_by_id != "" && c.post_id in posts && c.replies_count == 0
    requires c.parent_id.Some? ==> c.parent_id.value in comments && comments[c.parent_id.value].post_id == c.post_id
    ensures var posts' := posts[c.post_id := Recount(posts[c.post_id], CommentsCount, Increment)];
            && WellFormedIn(posts', CommentsWithReply(comments, c), likes) && ThreadsIn(CommentsWithReply(comments, c))
            && (CountersMatchIn(posts, comments, likes) ==> CountersMatchIn(posts', CommentsWithReply(comments, c), likes))
  {
    CommentInsertKeepsIntegrity(posts, comments, likes, c);
    if CountersMatchIn(posts, comments, likes) {
      CommentInsertKeepsCommentCounts(posts, comments, c);
      CommentInsertKeepsReplyCounts(comments, c);
    }
  }

  /** Uncounting and removing a comment keeps every invariant; with the counters right
      beforehand, neither counter it lowers is at zero, so the floor never applies. */
  lemma CommentRemovalKeepsInvariants(
    posts: map<string, PostRecord>, comments: map<string, CommentRecord>, likes: set<LikeKey>, id: string)
    requires WellFormedIn(posts, comments, likes) && ThreadsIn(comments)
    requires id in comments
    ensures comments[id].post_id in posts
    ensures var c := comments[id];
            var posts' := posts[c.post_id := Recount(posts[c.post_id], CommentsCount, Decrement)];
            && WellFormedIn(posts', CommentsWithout(comments, id), likes) && ThreadsIn(CommentsWithout(comments, id))
            && (CountersMatchIn(posts, comments, likes) ==>
                  && posts[c.post_id].comments_count >= 1
                  && (c.parent_id.Some? ==> comments[c.parent_id.value].replies_count >= 1)
                  && CountersMatchIn(posts', CommentsWithout(comments, id), likes))
  {
    CommentRemovalKeepsIntegrity(posts, comments, likes, id);
    if CountersMatchIn(posts, comments, likes) {
      CommentRemovalKeepsCommentCounts(posts, comments, id);
      CommentRemovalKeepsReplyCounts(comments, id);
    }
  }

  class PostCommentService {
    const db: Database
    const postService: PostService

    constructor (postService: PostService)
      ensures this.postService == postService && db == postService.db
    {
      this.postService := postService;
      db := postService.db;
    }

    /** `updatePostCommentRepliesCount`: a decrement at zero does nothing; otherwise the
        count moves by one on the loaded row and only `replies_count` is written back. */
    method UpdatePostCommentRepliesCount(comment: CommentEntity, handler: CountHandler)
      modifies comment, db
      ensures comment.replies_count == Step(old(comment.replies_count), handler)
      ensures db.posts == old(db.posts) && db.likes == old(db.likes)
      ensures StepWrites(old(comment.replies_count), handler) ==>
        && db.writes == old(db.writes) + [RepliesCountSet(comment.id, comment.replies_count)]
        && db.comments == if comment.id in old(db.comments)
                          then old(db.comments)[comment.id := old(db.comments)[comment.id].(replies_count := comment.replies_count)]
                          else old(db.comments)
      ensures !StepWrites(old(comment.replies_count), handler) ==> db.writes == old(db.writes) && db.comments == old(db.comments)
    {
      if comment.replies_count == 0 && handler == Decrement {
        return;
      }
      comment.replies_count := comment.replies_count + if handler == Increment then 1 else -1;
      db.UpdateRepliesCount(comment.id, comment.replies_count);
    }

    /** `createPostComment`: the post must exist, a named parent must exist and belong to
        the same post; then the comment is saved, the post's `comments_count` goes up by
        one, and so does the parent's `replies_count` when there is a parent. The new
        row's id is the one the database generates. */
    method CreatePostComment(postId: string, parentId: Option<string>, content: string, user: string, newId: string)
      returns (r: Result<CommentRecord>)
      requires postService.db == db && db.WellFormed() && db.ThreadsStayInPost()
      requires newId != "" && newId !in db.comments && user != ""
      modifies db
      ensures r.Ok? <==>
        && postId in old(db.posts)
        && (IsTruthy(parentId) ==> parentId.value in old(db.comments) && old(db.comments)[parentId.value].post_id == postId)
      ensures postId !in old(db.posts) ==> r == Err(NotFound(PostNotFound))
      ensures postId in old(db.posts) && IsTruthy(parentId) && parentId.value !in old(db.comments) ==>
        r == Err(NotFound(CommentNotFound))
      ensures postId in old(db.posts) && IsTruthy(parentId) && parentId.value in old(db.comments) &&
              old(db.comments)[parentId.value].post_id != postId ==>
        r == Err(Forbidden(WrongPost))
      ensures r.Err? ==> unchanged(db)
      ensures r.Ok? ==>
        && r.value == CommentRecord(newId, postId, RequestedParent(parentId), user, content, 0)
        && db.comments == CommentsWithReply(old(db.comments), r.value)
        && db.posts == old(db.posts)[postId := Recount(old(db.posts)[postId], CommentsCount, Increment)]
        && db.likes == old(db.likes)
        && db.writes == old(db.writes) + CreateWrites(old(db.posts), old(db.comments), r.value)
      ensures db.WellFormed() && db.ThreadsStayInPost()
      ensures old(db.CountersMatch()) ==> db.CountersMatch()
    {
      var found := postService.GetPostById(postId, None);
      if found.Err? {
        return Err(found.error);
      }
      var post := found.value.post;
      var parent: Option<CommentEntity> := None;
      if IsTruthy(parentId) {
        parent := db.FindComment(parentId.value);
        if parent.None? {
          return Err(NotFound(CommentNotFound));
        }
      }
      if parent.Some? && parent.value.post_id != post.id {
        return Err(Forbidden(WrongPost));
      }
      assert post.id == postId;
      var saved := CommentRecord(newId, post.id, if parent.Some? then Some(parent.value.id) else None, user, content, 0);
      CommentInsertKeepsInvariants(db.posts, db.comments, db.likes, saved);
      SaveComment(saved, post, parent);
      r := Ok(saved);
    }

    /** The writes of `createPostComment` once its checks pass: the new row is saved, then
        its post's `comments_count` and its parent's `replies_count` go up by one. */
    method SaveComment(saved: CommentRecord, post: PostEntity, parent: Option<CommentEntity>)
      requires postService.db == db
      requires saved.post_id in db.posts && db.posts[saved.post_id].id == saved.post_id && post.Mirrors(db.posts[saved.post_id])
      requires saved.id !in db.comments
      requires saved.parent_id == (if parent.Some? then Some(parent.value.id) else None)
      requires parent.Some? ==> parent.value.id in db.comments && parent.value.Mirrors(db.comments[parent.value.id])
      modifies db, post, if parent.Some? then {parent.value} else {}
      ensures db.comments == CommentsWithReply(old(db.comments), saved)
      ensures db.posts == old(db.posts)[saved.post_id := Recount(old(db.posts)[saved.post_id], CommentsCount, Increment)]
      ensures db.likes == old(db.likes)
      ensures db.writes == old(db.writes) + CreateWrites(old(db.posts), old(db.comments), saved)
    {
      ghost var comments0, posts0, writes0 := db.comments, db.posts, db.writes;
      ghost var row := posts0[saved.post_id];
      db.InsertComment(saved);
      assert post.id == saved.post_id && post.comments_count == row.comments_count;
      postService.UpdateCounts(post, CommentsCount, Increment);
      assert db.posts == posts0[saved.post_id := row.WithCounter(CommentsCount, row.comments_count + 1)];
      assert db.writes == writes0 + [CommentInserted(saved), PostCounterSet(saved.post_id, CommentsCount, row.comments_count + 1)];
      if parent.Some? {
        ghost var comments1 := db.comments;
        UpdatePostCommentRepliesCount(parent.value, Increment);
        assert comments1[parent.value.id] == comments0[parent.value.id];
      }
    }

    /** `updatePostComment`: the comment must exist and be the caller's; then only the
        payload's `content` is written, keyed by the comment's id. The comment is loaded
        with its author joined, so the check reads the joined author's id. */
    method UpdatePostComment(id: string, content: Option<string>, user: string) returns (r: Result<()>)
      requires db.WellFormed()
      modifies db
      ensures r.Ok? <==> id in old(db.comments) && old(db.comments)[id].commented_by_id == user
      ensures id !in old(db.comments) ==> r == Err(NotFound(CommentNotFound))
      ensures id in old(db.comments) && old(db.comments)[id].commented_by_id != user ==> r == Err(Forbidden(NotYourComment))
      ensures r.Err? ==> unchanged(db)
      ensures r.Ok? ==>
        && db.comments == (if content.Some? then old(db.comments)[id := old(db.comments)[id].(content := content.value)]
                           else old(db.comments))
        && db.posts == old(db.posts) && db.likes == old(db.likes)
        && db.writes == old(db.writes) + [CommentContentSet(id, content)]
      ensures db.WellFormed() && (old(db.ThreadsStayInPost()) ==> db.ThreadsStayInPost())
      ensures old(db.CountersMatch()) ==> db.CountersMatch()
    {
      var found := db.FindComment(id);
      if found.None? {
        return Err(NotFound(CommentNotFound));
      }
      var comment := found.value;
      var allowed := CheckOwner(None, Some(comment.commented_by_id), user, NotYourComment);
      if allowed.Err? {
        return Err(allowed.error);
      }
      if content.Some? {
        ContentEditKeepsInvariants(db.posts, db.comments, db.likes, id, content.value);
      }
      db.UpdateCommentContent(comment.id, content);
      r := Ok(());
    }

    /** The first step of `deletePostComment`: a comment that names a parent has the
        parent reloaded and its `replies_count` lowered (floored at zero). */
    method UncountOnParent(parentId: Option<string>)
      requires parentId.Some? ==>
        parentId.value != "" && parentId.value in db.comments && db.comments[parentId.value].id == parentId.value
      modifies db
      ensures db.comments == BumpParent(old(db.comments), parentId, Decrement)
      ensures db.writes == old(db.writes) + RepliesWrite(old(db.comments), parentId, Decrement)
      ensures db.posts == old(db.posts) && db.likes == old(db.likes)
    {
      if IsTruthy(parentId) {
        var parent := db.LoadComment(parentId.value);
        UpdatePostCommentRepliesCount(parent, Decrement);
      }
    }

    /** `deletePostComment`: the comment must exist and be the caller's; then its parent's
        `replies_count` goes down (floored at zero), the comment is removed (its replies
        lose their parent) and its post's `comments_count` goes down (floored at zero). The
        comment is loaded with its post, so the check reads its own `commented_by_id`. */
    method DeletePostComment(id: string, user: string) returns (r: Result<()>)
      requires postService.db == db && db.WellFormed() && db.ThreadsStayInPost()
      modifies db
      ensures r.Ok? <==> id in old(db.comments) && old(db.comments)[id].commented_by_id == user
      ensures id !in old(db.comments) ==> r == Err(NotFound(CommentNotFound))
      ensures id in old(db.comments) && old(db.comments)[id].commented_by_id != user ==> r == Err(Forbidden(NotYourComment))
      ensures r.Err? ==> unchanged(db)
      ensures r.Ok? ==>
        var c := old(db.comments)[id];
        && db.comments == CommentsWithout(old(db.comments), id)
        && db.posts == old(db.posts)[c.post_id := Recount(old(db.posts)[c.post_id], CommentsCount, Decrement)]
        && db.likes == old(db.likes)
        && db.writes == old(db.writes) + RepliesWrite(old(db.comments), c.parent_id, Decrement) + [CommentDeleted(id)] +
                        CounterWrite(old(db.posts)[c.post_id], CommentsCount, Decrement)
      ensures db.WellFormed() && db.ThreadsStayInPost()
      ensures old(db.CountersMatch()) ==> db.CountersMatch()
    {
      var found := db.FindComment(id);
      if found.None? {
        return Err(NotFound(CommentNotFound));
      }
      var comment := found.value;
      var allowed := CheckOwner(Some(comment.commented_by_id), None, user, NotYourComment);
      if allowed.Err? {
        return Err(allowed.error);
      }
      var post := db.LoadPost(comment.post_id);
      CommentRemovalKeepsInvariants(db.posts, db.comments, db.likes, id);
      DeleteRows(comment, post);
      r := Ok(());
    }

    /** The writes of `deletePostComment` once its check passes: the parent's
        `replies_count` goes down, the row is removed, and its post's `comments_count` goes
        down, each floored at zero. */
    method DeleteRows(comment: CommentEntity, post: PostEntity)
      requires postService.db == db
      requires comment.id in db.comments && comment.Mirrors(db.comments[comment.id])
      requires comment.post_id in db.posts && db.posts[comment.post_id].id == comment.post_id
      requires post.Mirrors(db.posts[comment.post_id])
      requires comment.parent_id.Some? ==>
        var p := comment.parent_id.value; p != "" && p in db.comments && db.comments[p].id == p
      modifies db, post
      ensures db.comments == CommentsWithout(old(db.comments), comment.id)
      ensures db.posts == old(db.posts)[comment.post_id := Recount(old(db.posts)[comment.post_id], CommentsCount, Decrement)]
      ensures db.likes == old(db.likes)
      ensures db.writes == old(db.writes) + RepliesWrite(old(db.comments), comment.parent_id, Decrement) +
                           [CommentDeleted(comment.id)] + CounterWrite(old(db.posts)[comment.post_id], CommentsCount, Decrement)
    {
      ghost var comments0, writes0 := db.comments, db.writes;
      ghost var postRow := db.posts[comment.post_id];
      UncountOnParent(comment.parent_id);
      db.RemoveComment(comment.id);
      assert db.comments == CommentsWithout(comments0, comment.id);
      postService.UpdateCounts(post, CommentsCount, Decrement);
      assert db.writes == writes0 + RepliesWrite(comments0, comment.parent_id, Decrement) + [CommentDeleted(comment.id)] +
                          CounterWrite(postRow, CommentsCount, Decrement);
    }
  }
}
