/** An in-memory stand-in for the posts, comments and likes tables the services read and
    write, with the database's own cascade rules, plus the rows the services load and then
    change in place. Every write the services issue is also recorded, in order. */
module Store {
  import opened Common

  // ---------------------------------------------------------------------------
  // counters

  /** The denormalised counters on a post. */
  datatype CounterKey = LikesCount | CommentsCount

  /** `CountHandler`: the direction of a counter update. */
  datatype CountHandler = Increment | Decrement

  /** A counter update writes unless it is a decrement of a counter already at zero. */
  predicate StepWrites(c: int, t: CountHandler) {
    !(c == 0 && t == Decrement)
  }

  /** The counter after one update: unchanged by a decrement at zero, otherwise one up or
      one down. */
  function Step(c: int, t: CountHandler): int {
    if !StepWrites(c, t) then c else if t == Increment then c + 1 else c - 1
  }

  /** The counter after a sequence of updates, and the number of writes they issue. */
  function Replay(c: int, ts: seq<CountHandler>): (int, nat)
    decreases |ts|
  {
    if |ts| == 0 then (c, 0)
    else
      var (final, writes) := Replay(Step(c, ts[0]), ts[1..]);
      (final, writes + if StepWrites(c, ts[0]) then 1 else 0)
  }

  /** A counter that starts non-negative stays non-negative under any sequence of updates. */
  lemma {:induction false} ReplayNonNegative(c: int, ts: seq<CountHandler>)
    requires c >= 0
    ensures Replay(c, ts).0 >= 0
    decreases |ts|
  {
    if |ts| > 0 {
      ReplayNonNegative(Step(c, ts[0]), ts[1..]);
    }
  }

  /** Decrements at zero are the only updates that issue no write. */
  lemma {:induction false} ReplayWrites(c: int, ts: seq<CountHandler>)
    requires c >= 0
    ensures Replay(c, ts).1 <= |ts|
    ensures (forall k :: 0 <= k < |ts| ==> ts[k] == Increment) ==> Replay(c, ts) == (c + |ts|, |ts|)
    decreases |ts|
  {
    if |ts| > 0 {
      ReplayWrites(Step(c, ts[0]), ts[1..]);
    }
  }

  /** From a non-negative counter, an increment followed by a decrement restores the value,
      and each of the two calls issues a write. */
  lemma IncrementThenDecrement(c: int)
    requires c >= 0
    ensures Replay(c, [Increment, Decrement]) == (c, 2)
  {
    var ts := [Increment, Decrement];
    assert ts[1..] == [Decrement];
    assert ts[1..][1..] == [];
    assert Replay(c + 1, [Decrement]) == (c, 1);
  }

  // ---------------------------------------------------------------------------
  // rows

  datatype PostRecord = PostRecord(
    id: string, author_id: string, title: string, content: string, banner_url: Option<string>,
    likes_count: int, comments_count: int)
  {
    function Counter(key: CounterKey): int {
      match key
      case LikesCount => likes_count
      case CommentsCount => comments_count
    }

    function WithCounter(key: CounterKey, value: int): (r: PostRecord)
      ensures r.Counter(key) == value
      ensures r.id == id && r.author_id == author_id
    {
      match key
      case LikesCount => this.(likes_count := value)
      case CommentsCount => this.(comments_count := value)
    }
  }

  /** The post row after one `updateCounts` on counter `key`. */
  function Recount(p: PostRecord, key: CounterKey, handler: CountHandler): (r: PostRecord)
    ensures r.id == p.id && r.author_id == p.author_id
    ensures r.Counter(key) == Step(p.Counter(key), handler)
    ensures forall k :: k != key ==> r.Counter(k) == p.Counter(k)
  {
    p.WithCounter(key, Step(p.Counter(key), handler))
  }

  datatype CommentRecord = CommentRecord(
    id: string, post_id: string, parent_id: Option<string>, commented_by_id: string,
    content: string, replies_count: int)

  /** The comments table after one `updatePostCommentRepliesCount` on the row `parent`, if
      there is one. */
  function BumpParent(comments: map<string, CommentRecord>, parent: Option<string>, handler: CountHandler)
    : (r: map<string, CommentRecord>)
    ensures r.Keys == comments.Keys
    ensures forall c :: c in r ==>
      r[c] == comments[c].(replies_count := if parent == Some(c) then Step(comments[c].replies_count, handler)
                                            else comments[c].replies_count)
  {
    if parent.Some? && parent.value in comments
    then comments[parent.value := comments[parent.value].(replies_count := Step(comments[parent.value].replies_count, handler))]
    else comments
  }

  /** A like, identified by the post and the user. */
  datatype LikeKey = LikeKey(post_id: string, user_id: string)

  /** The fields `Post.update` copies from an update payload; absent fields are not written. */
  datatype PostPatch = PostPatch(title: Option<string>, banner_url: Option<string>, content: Option<string>)

  function Patched(p: PostRecord, patch: PostPatch): PostRecord {
    p.(title := if patch.title.Some? then patch.title.value else p.title,
       banner_url := if patch.banner_url.Some? then patch.banner_url else p.banner_url,
       content := if patch.content.Some? then patch.content.value else p.content)
  }

  /** A write issued to the database, as the repositories receive it. */
  datatype Write =
    | PostCounterSet(postId: string, key: CounterKey, value: int)
    | PostFieldsSet(postId: string, patch: PostPatch)
    | PostDeleted(postId: string)
    | CommentInserted(comment: CommentRecord)
    | RepliesCountSet(commentId: string, value: int)
    | CommentContentSet(commentId: string, content: Option<string>)
    | CommentDeleted(commentId: string)
    | LikeInserted(like: LikeKey)
    | LikeDeleted(like: LikeKey)

  /** The writes one `updateCounts` on a row mirroring `p` issues: none for a decrement at
      zero, otherwise the one counter's new value. */
  function CounterWrite(p: PostRecord, key: CounterKey, handler: CountHandler): (w: seq<Write>)
    ensures |w| <= 1 && (w != [] <==> StepWrites(p.Counter(key), handler))
  {
    if StepWrites(p.Counter(key), handler) then [PostCounterSet(p.id, key, Step(p.Counter(key), handler))] else []
  }

  /** The writes one `updatePostCommentRepliesCount` on the row `parent` (if any) issues. */
  function RepliesWrite(comments: map<string, CommentRecord>, parent: Option<string>, handler: CountHandler): (w: seq<Write>)
    ensures |w| <= 1
    ensures w != [] <==> parent.Some? && parent.value in comments && StepWrites(comments[parent.value].replies_count, handler)
  {
    if parent.Some? && parent.value in comments && StepWrites(comments[parent.value].replies_count, handler)
    then [RepliesCountSet(parent.value, Step(comments[parent.value].replies_count, handler))]
    else []
  }

  // ---------------------------------------------------------------------------
  // what the counters should equal

  ghost function LikesOf(likes: set<LikeKey>, postId: string): set<LikeKey> {
    set l | l in likes && l.post_id == postId
  }

  ghost function CommentsOf(comments: map<string, CommentRecord>, postId: string): set<string> {
    set c | c in comments && comments[c].post_id == postId
  }

  ghost function RepliesOf(comments: map<string, CommentRecord>, commentId: string): set<string> {
    set c | c in comments && comments[c].parent_id == Some(commentId)
  }

  /** The comments table after deleting the rows `gone`: the foreign key on `parent_id` is
      `ON DELETE SET NULL`, so the replies to a deleted comment lose their parent. */
  function WithoutComments(comments: map<string, CommentRecord>, gone: set<string>): (r: map<string, CommentRecord>)
    ensures r.Keys == comments.Keys - gone
    ensures forall c :: c in r ==>
      r[c] == if comments[c].parent_id.Some? && comments[c].parent_id.value in gone
              then comments[c].(parent_id := None) else comments[c]
  {
    map c | c in comments && c !in gone ::
      if comments[c].parent_id.Some? && comments[c].parent_id.value in gone
      then comments[c].(parent_id := None) else comments[c]
  }

  lemma LikesOfInsert(likes: set<LikeKey>, l: LikeKey, p: string)
    requires l !in likes
    ensures |LikesOf(likes + {l}, p)| == |LikesOf(likes, p)| + (if l.post_id == p then 1 else 0)
  {
    if l.post_id == p {
      assert LikesOf(likes + {l}, p) == LikesOf(likes, p) + {l};
    } else {
      assert LikesOf(likes + {l}, p) == LikesOf(likes, p);
    }
  }

  lemma LikesOfRemove(likes: set<LikeKey>, l: LikeKey, p: string)
    requires l in likes
    ensures |LikesOf(likes - {l}, p)| == |LikesOf(likes, p)| - (if l.post_id == p then 1 else 0)
  {
    if l.post_id == p {
      assert LikesOf(likes - {l}, p) == LikesOf(likes, p) - {l};
    } else {
      assert LikesOf(likes - {l}, p) == LikesOf(likes, p);
    }
  }

  lemma CommentsOfInsert(comments: map<string, CommentRecord>, c: CommentRecord, p: string)
    requires c.id !in comments
    ensures |CommentsOf(comments[c.id := c], p)| == |CommentsOf(comments, p)| + (if c.post_id == p then 1 else 0)
  {
    var after := comments[c.id := c];
    if c.post_id == p {
      assert CommentsOf(after, p) == CommentsOf(comments, p) + {c.id};
    } else {
      assert CommentsOf(after, p) == CommentsOf(comments, p);
    }
  }

  lemma RepliesOfInsert(comments: map<string, CommentRecord>, c: CommentRecord, p: string)
    requires c.id !in comments
    ensures |RepliesOf(comments[c.id := c], p)| == |RepliesOf(comments, p)| + (if c.parent_id == Some(p) then 1 else 0)
  {
    var after := comments[c.id := c];
    if c.parent_id == Some(p) {
      assert RepliesOf(after, p) == RepliesOf(comments, p) + {c.id};
    } else {
      assert RepliesOf(after, p) == RepliesOf(comments, p);
    }
  }

  /** Changing a comment's counter or content leaves every post's comments and every
      comment's replies as they were. */
  lemma CommentsOfReplace(comments: map<string, CommentRecord>, id: string, r: CommentRecord, p: string)
    requires id in comments
    requires r.post_id == comments[id].post_id && r.parent_id == comments[id].parent_id
    ensures CommentsOf(comments[id := r], p) == CommentsOf(comments, p)
    ensures RepliesOf(comments[id := r], p) == RepliesOf(comments, p)
  {
  }

  lemma CommentsOfRemove(comments: map<string, CommentRecord>, id: string, p: string)
    requires id in comments
    ensures |CommentsOf(WithoutComments(comments, {id}), p)| ==
            |CommentsOf(comments, p)| - (if comments[id].post_id == p then 1 else 0)
  {
    var after := WithoutComments(comments, {id});
    assert forall c :: c in after ==> c in comments && after[c].post_id == comments[c].post_id;
    if comments[id].post_id == p {
      assert CommentsOf(after, p) == CommentsOf(comments, p) - {id};
    } else {
      assert CommentsOf(after, p) == CommentsOf(comments, p);
    }
  }

  /** Removing a comment takes it off its parent's replies; its own replies are orphaned,
      which changes no other comment's replies. */
  lemma RepliesOfRemove(comments: map<string, CommentRecord>, id: string, p: string)
    requires id in comments && p != id
    ensures |RepliesOf(WithoutComments(comments, {id}), p)| ==
            |RepliesOf(comments, p)| - (if comments[id].parent_id == Some(p) then 1 else 0)
  {
    var after := WithoutComments(comments, {id});
    if comments[id].parent_id == Some(p) {
      assert RepliesOf(after, p) == RepliesOf(comments, p) - {id};
    } else {
      assert RepliesOf(after, p) == RepliesOf(comments, p);
    }
  }

  /** What the schema guarantees: rows are stored under their generated (non-empty) ids,
      the owner columns are set, and every foreign key points at an existing row. */
  ghost predicate WellFormedIn(posts: map<string, PostRecord>, comments: map<string, CommentRecord>, likes: set<LikeKey>) {
    && (forall id :: id in posts ==> id != "" && posts[id].id == id && posts[id].author_id != "")
    && (forall id :: id in comments ==>
          id != "" && comments[id].id == id && comments[id].commented_by_id != "" && comments[id].post_id in posts)
    && ParentsExist(comments)
    && (forall l :: l in likes ==> l.post_id in posts)
  }

  /** Every reply's parent is a stored comment. */
  ghost predicate ParentsExist(comments: map<string, CommentRecord>) {
    forall id :: id in comments && comments[id].parent_id.Some? ==> comments[id].parent_id.value in comments
  }

  /** What the services guarantee on top: a reply belongs to the post of its parent, and
      no comment answers itself. */
  ghost predicate ThreadsIn(comments: map<string, CommentRecord>) {
    forall id :: id in comments && comments[id].parent_id.Some? ==>
      comments[id].parent_id != Some(id) &&
      (comments[id].parent_id.value in comments ==> comments[comments[id].parent_id.value].post_id == comments[id].post_id)
  }

  /** Each post's `likes_count` equals the number of its likes. */
  ghost predicate LikeCountsIn(posts: map<string, PostRecord>, likes: set<LikeKey>) {
    forall id :: id in posts ==> posts[id].likes_count == |LikesOf(likes, id)|
  }

  /** Each post's `comments_count` equals the number of its comments. */
  ghost predicate CommentCountsIn(posts: map<string, PostRecord>, comments: map<string, CommentRecord>) {
    forall id :: id in posts ==> posts[id].comments_count == |CommentsOf(comments, id)|
  }

  /** Each comment's `replies_count` equals the number of its replies. */
  ghost predicate ReplyCountsIn(comments: map<string, CommentRecord>) {
    forall id :: id in comments ==> comments[id].replies_count == |RepliesOf(comments, id)|
  }

  /** The denormalised counters equal the counts they cache. */
  ghost predicate CountersMatchIn(posts: map<string, PostRecord>, comments: map<string, CommentRecord>, likes: set<LikeKey>) {
    LikeCountsIn(posts, likes) && CommentCountsIn(posts, comments) && ReplyCountsIn(comments)
  }

  /** The id the ownership checks compare: the row's own owner column when it was loaded
      and is truthy, otherwise the id of the joined owner; `None` when the relation was
      not loaded either, where reading `.id` of `undefined` throws. */
  function OwnerId(own: Option<string>, joined: Option<string>): (r: Option<string>)
    ensures own.Some? && own.value != "" ==> r == own
    ensures (own.None? || own == Some("")) ==> r == joined
  {
    if own.Some? && own.value != "" then own else joined
  }

  /** A permission check: the owner must be the logged-in user. */
  function CheckOwner(own: Option<string>, joined: Option<string>, user: string, denied: string): (r: Result<()>)
    ensures r.Ok? <==> OwnerId(own, joined) == Some(user)
    ensures r.Err? && OwnerId(own, joined).Some? ==> r.error == Forbidden(denied)
  {
    match OwnerId(own, joined)
    case None => Err(ProgrammingError("TypeError: Cannot read properties of undefined (reading 'id')"))
    case Some(owner) => if owner != user then Err(Forbidden(denied)) else Ok(())
  }

  /** A loaded owner column and a joined owner with the same id decide alike. */
  lemma OwnerSourcesAgree(owner: string, user: string, denied: string)
    requires owner != ""
    ensures CheckOwner(Some(owner), None, user, denied) == CheckOwner(None, Some(owner), user, denied)
    ensures CheckOwner(Some(owner), None, user, denied).Ok? <==> owner == user
  {
  }

  // ---------------------------------------------------------------------------
  // loaded rows, changed in place by the services

  /** A post row as loaded by a query; the services change its counters in place. */
  class PostEntity {
    const id: string
    const author_id: string
    var likes_count: int
    var comments_count: int

    constructor (r: PostRecord)
      ensures id == r.id && author_id == r.author_id
      ensures likes_count == r.likes_count && comments_count == r.comments_count
    {
      id, author_id := r.id, r.author_id;
      likes_count, comments_count := r.likes_count, r.comments_count;
    }

    /** The entity holds the stored row's ids and counters. */
    predicate Mirrors(r: PostRecord)
      reads this
    {
      id == r.id && author_id == r.author_id && likes_count == r.likes_count && comments_count == r.comments_count
    }

    function Counter(key: CounterKey): int
      reads this
    {
      match key
      case LikesCount => likes_count
      case CommentsCount => comments_count
    }
  }

  /** A comment row as loaded by a query; the services change `replies_count` in place. */
  class CommentEntity {
    const id: string
    const post_id: string
    const parent_id: Option<string>
    const commented_by_id: string
    var replies_count: int

    constructor (r: CommentRecord)
      ensures id == r.id && post_id == r.post_id && parent_id == r.parent_id
      ensures commented_by_id == r.commented_by_id && replies_count == r.replies_count
    {
      id, post_id, parent_id := r.id, r.post_id, r.parent_id;
      commented_by_id, replies_count := r.commented_by_id, r.replies_count;
    }

    /** The entity holds the stored row's ids and counter. */
    predicate Mirrors(r: CommentRecord)
      reads this
    {
      id == r.id && post_id == r.post_id && parent_id == r.parent_id &&
      commented_by_id == r.commented_by_id && replies_count == r.replies_count
    }
  }

  // ---------------------------------------------------------------------------
  // the database

  class Database {
    var posts: map<string, PostRecord>
    var comments: map<string, CommentRecord>
    var likes: set<LikeKey>
    /** Every write issued so far, oldest first. */
    var writes: seq<Write>

    constructor ()
      ensures posts == map[] && comments == map[] && likes == {} && writes == []
    {
      posts, comments, likes, writes := map[], map[], {}, [];
    }

    /** The state the invariants below are stated over. */
    ghost predicate WellFormed()
      reads this
    {
      WellFormedIn(posts, comments, likes)
    }

    ghost predicate ThreadsStayInPost()
      reads this
    {
      ThreadsIn(comments)
    }

    ghost predicate CountersMatch()
      reads this
    {
      CountersMatchIn(posts, comments, likes)
    }

    // reads

    method FindPost(id: string) returns (p: Option<PostEntity>)
      ensures p.Some? <==> id in posts
      ensures p.Some? ==> fresh(p.value) && p.value.Mirrors(posts[id])
    {
      if id in posts {
        var e := new PostEntity(posts[id]);
        p := Some(e);
      } else {
        p := None;
      }
    }

    method FindComment(id: string) returns (c: Option<CommentEntity>)
      ensures c.Some? <==> id in comments
      ensures c.Some? ==> fresh(c.value) && c.value.Mirrors(comments[id])
    {
      if id in comments {
        var e := new CommentEntity(comments[id]);
        c := Some(e);
      } else {
        c := None;
      }
    }

    method LoadPost(id: string) returns (p: PostEntity)
      requires id in posts
      ensures fresh(p) && p.Mirrors(posts[id])
    {
      p := new PostEntity(posts[id]);
    }

    method LoadComment(id: string) returns (c: CommentEntity)
      requires id in comments
      ensures fresh(c) && c.Mirrors(comments[id])
    {
      c := new CommentEntity(comments[id]);
    }

    // writes

    /** `update(id, { [key]: value })` on the posts table; an unknown id matches no row. */
    method UpdatePostCounter(id: string, key: CounterKey, value: int)
      modifies this
      ensures posts == if id in old(posts) then old(posts)[id := old(posts)[id].WithCounter(key, value)] else old(posts)
      ensures comments == old(comments) && likes == old(likes)
      ensures writes == old(writes) + [PostCounterSet(id, key, value)]
    {
      if id in posts {
        posts := posts[id := posts[id].WithCounter(key, value)];
      }
      writes := writes + [PostCounterSet(id, key, value)];
    }

    method UpdatePostFields(id: string, patch: PostPatch)
      modifies this
      ensures posts == if id in old(posts) then old(posts)[id := Patched(old(posts)[id], patch)] else old(posts)
      ensures comments == old(comments) && likes == old(likes)
      ensures writes == old(writes) + [PostFieldsSet(id, patch)]
    {
      if id in posts {
        posts := posts[id := Patched(posts[id], patch)];
      }
      writes := writes + [PostFieldsSet(id, patch)];
    }

    /** Deleting a post cascades to its likes and its comments. */
    method RemovePost(id: string)
      modifies this
      ensures posts == old(posts) - {id}
      ensures likes == set l | l in old(likes) && l.post_id != id
      ensures comments == WithoutComments(old(comments), set c | c in old(comments) && old(comments)[c].post_id == id)
      ensures writes == old(writes) + [PostDeleted(id)]
    {
      var gone := set c | c in comments && comments[c].post_id == id;
      comments := WithoutComments(comments, gone);
      likes := set l | l in likes && l.post_id != id;
      posts := posts - {id};
      writes := writes + [PostDeleted(id)];
    }

    method InsertComment(c: CommentRecord)
      modifies this
      ensures comments == old(comments)[c.id := c]
      ensures posts == old(posts) && likes == old(likes)
      ensures writes == old(writes) + [CommentInserted(c)]
    {
      comments := comments[c.id := c];
      writes := writes + [CommentInserted(c)];
    }

    method UpdateRepliesCount(id: string, value: int)
      modifies this
      ensures comments == if id in old(comments) then old(comments)[id := old(comments)[id].(replies_count := value)] else old(comments)
      ensures posts == old(posts) && likes == old(likes)
      ensures writes == old(writes) + [RepliesCountSet(id, value)]
    {
      if id in comments {
        comments := comments[id := comments[id].(replies_count := value)];
      }
      writes := writes + [RepliesCountSet(id, value)];
    }

    method UpdateCommentContent(id: string, content: Option<string>)
      modifies this
      ensures comments ==
        if id in old(comments) && content.Some? then old(comments)[id := old(comments)[id].(content := content.value)]
        else old(comments)
      ensures posts == old(posts) && likes == old(likes)
      ensures writes == old(writes) + [CommentContentSet(id, content)]
    {
      if id in comments && content.Some? {
        comments := comments[id := comments[id].(content := content.value)];
      }
      writes := writes + [CommentContentSet(id, content)];
    }

    method RemoveComment(id: string)
      modifies this
      ensures comments == WithoutComments(old(comments), {id})
      ensures posts == old(posts) && likes == old(likes)
      ensures writes == old(writes) + [CommentDeleted(id)]
    {
      comments := WithoutComments(comments, {id});
      writes := writes + [CommentDeleted(id)];
    }

    method InsertLike(l: LikeKey)
      modifies this
      ensures likes == old(likes) + {l}
      ensures posts == old(posts) && comments == old(comments)
      ensures writes == old(writes) + [LikeInserted(l)]
    {
      likes := likes + {l};
      writes := writes + [LikeInserted(l)];
    }

    method RemoveLike(l: LikeKey)
      modifies this
      ensures likes == old(likes) - {l}
      ensures posts == old(posts) && comments == old(comments)
      ensures writes == old(writes) + [LikeDeleted(l)]
    {
      likes := likes - {l};
      writes := writes + [LikeDeleted(l)];
    }
  }
}
