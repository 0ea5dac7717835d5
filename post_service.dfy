/** `PostService`: loading a post, the author check that guards updates and deletes, the
    denormalised counter update shared with the like and comment services, and the merge
    of the viewer's likes into a page of posts. */
module Posts {
  import opened Common
  import opened Store

  const PostNotFound := "Post não encotrado"
  const NotYourPost := "Não pode alterar um post que não é seu"

  /** A post as `getPostById` returns it: the row, flagged `is_liked_by_current_user: true`
      only when the viewer's like was found. */
  datatype FoundPost = FoundPost(post: PostEntity, is_liked_by_current_user: Option<bool>)

  class PostService {
    const db: Database

    constructor (db: Database)
      ensures this.db == db
    {
      this.db := db;
    }

    /** `getPostById`: the post and the viewer's like are looked up together; a missing
        post is NotFound. */
    method GetPostById(id: string, viewer: Option<string>) returns (r: Result<FoundPost>)
      ensures r.Err? <==> id !in db.posts
      ensures r.Err? ==> r.error == NotFound(PostNotFound)
      ensures r.Ok? ==> fresh(r.value.post) && r.value.post.Mirrors(db.posts[id])
      ensures r.Ok? ==> r.value.is_liked_by_current_user ==
                        (if IsTruthy(viewer) && LikeKey(id, viewer.value) in db.likes then Some(true) else None)
    {
      var post := db.FindPost(id);
      var like := IsTruthy(viewer) && LikeKey(id, viewer.value) in db.likes;
      if post.None? {
        return Err(NotFound(PostNotFound));
      }
      r := Ok(FoundPost(post.value, if like then Some(true) else None));
    }

    /** `updateCounts`: a decrement of a counter at zero does nothing; otherwise the
        counter moves by one on the loaded row and that one column is written back. */
    method UpdateCounts(post: PostEntity, key: CounterKey, handler: CountHandler)
      modifies post, db
      ensures post.Counter(key) == Step(old(post.Counter(key)), handler)
      ensures forall k :: k != key ==> post.Counter(k) == old(post.Counter(k))
      ensures db.comments == old(db.comments) && db.likes == old(db.likes)
      ensures StepWrites(old(post.Counter(key)), handler) ==>
        && db.writes == old(db.writes) + [PostCounterSet(post.id, key, post.Counter(key))]
        && db.posts == if post.id in old(db.posts)
                       then old(db.posts)[post.id := old(db.posts)[post.id].WithCounter(key, post.Counter(key))]
                       else old(db.posts)
      ensures !StepWrites(old(post.Counter(key)), handler) ==> db.writes == old(db.writes) && db.posts == old(db.posts)
    {
      if post.Counter(key) == 0 && handler == Decrement {
        return;
      }
      var delta := if handler == Increment then 1 else -1;
      match key {
        case LikesCount => post.likes_count := post.likes_count + delta;
        case CommentsCount => post.comments_count := post.comments_count + delta;
      }
      db.UpdatePostCounter(post.id, key, post.Counter(key));
    }

    /** `updatePost`: load, check the author, then write the patch; nothing is written
        when a guard fails. */
    method UpdatePost(id: string, patch: PostPatch, user: string) returns (r: Result<()>)
      requires db.WellFormed()
      modifies db
      ensures r.Ok? <==> id in old(db.posts) && old(db.posts)[id].author_id == user
      ensures id !in old(db.posts) ==> r == Err(NotFound(PostNotFound))
      ensures id in old(db.posts) && old(db.posts)[id].author_id != user ==> r == Err(Forbidden(NotYourPost))
      ensures r.Err? ==> unchanged(db)
      ensures r.Ok? ==>
        && db.posts == old(db.posts)[id := Patched(old(db.posts)[id], patch)]
        && db.comments == old(db.comments) && db.likes == old(db.likes)
        && db.writes == old(db.writes) + [PostFieldsSet(id, patch)]
      ensures db.WellFormed() && (old(db.ThreadsStayInPost()) ==> db.ThreadsStayInPost())
      ensures old(db.CountersMatch()) ==> db.CountersMatch()
    {
      var found := GetPostById(id, None);
      if found.Err? {
        return Err(found.error);
      }
      var post := found.value.post;
      var allowed := CheckOwner(Some(post.author_id), None, user, NotYourPost);
      if allowed.Err? {
        return Err(allowed.error);
      }
      db.UpdatePostFields(post.id, patch);
      r := Ok(());
      assert LikesOf(db.likes, id) == LikesOf(old(db.likes), id);
    }

    /** `deletePost`: load, check the author, then remove the row; the database cascades
        the removal to the post's likes and comments. */
    method DeletePost(id: string, user: string) returns (r: Result<()>)
      requires db.WellFormed() && db.ThreadsStayInPost()
      modifies db
      ensures r.Ok? <==> id in old(db.posts) && old(db.posts)[id].author_id == user
      ensures id !in old(db.posts) ==> r == Err(NotFound(PostNotFound))
      ensures id in old(db.posts) && old(db.posts)[id].author_id != user ==> r == Err(Forbidden(NotYourPost))
      ensures r.Err? ==> unchanged(db)
      ensures r.Ok? ==>
        && db.posts == old(db.posts) - {id}
        && db.likes == set l | l in old(db.likes) && l.post_id != id
        && db.comments == WithoutComments(old(db.comments), set c | c in old(db.comments) && old(db.comments)[c].post_id == id)
        && db.writes == old(db.writes) + [PostDeleted(id)]
      ensures db.WellFormed() && db.ThreadsStayInPost()
      ensures old(db.CountersMatch()) ==> db.CountersMatch()
    {
      var found := GetPostById(id, None);
      if found.Err? {
        return Err(found.error);
      }
      var post := found.value.post;
      var allowed := CheckOwner(Some(post.author_id), None, user, NotYourPost);
      if allowed.Err? {
        return Err(allowed.error);
      }
      PostRemovalKeepsIntegrity(db.posts, db.comments, db.likes, id);
      if db.CountersMatch() {
        PostRemovalKeepsCounters(db.posts, db.comments, db.likes, id);
      }
      assert CommentsOn(db.comments, id) == set c | c in db.comments && db.comments[c].post_id == id;
      db.RemovePost(post.id);
      r := Ok(());
    }
  }

  /** The comments that go with a post. */
  ghost function CommentsOn(comments: map<string, CommentRecord>, postId: string): set<string> {
    set c | c in comments && comments[c].post_id == postId
  }

  /** Under the thread invariant, the comments that survive a post's removal keep their
      rows as they were: none of them had a parent on the removed post. */
  lemma PostRemovalKeepsSurvivors(comments: map<string, CommentRecord>, id: string)
    requires ThreadsIn(comments)
    requires forall c :: c in comments && comments[c].parent_id.Some? ==> comments[c].parent_id.value in comments
    ensures var after := WithoutComments(comments, CommentsOn(comments, id));
            forall c :: c in after ==> after[c] == comments[c] && comments[c].post_id != id
  {
  }

  /** Removing a post together with its likes and comments keeps the schema's guarantees
      and keeps replies within their post. */
  lemma PostRemovalKeepsIntegrity(
    posts: map<string, PostRecord>, comments: map<string, CommentRecord>, likes: set<LikeKey>, id: string)
    requires WellFormedIn(posts, comments, likes) && ThreadsIn(comments)
    ensures var comments' := WithoutComments(comments, CommentsOn(comments, id));
            var likes' := set l | l in likes && l.post_id != id;
            WellFormedIn(posts - {id}, comments', likes') && ThreadsIn(comments')
  {
    PostRemovalKeepsSurvivors(comments, id);
  }

  /** Removing a post together with its likes and comments leaves every remaining counter
      equal to what it counts. */
  lemma PostRemovalKeepsCounters(
    posts: map<string, PostRecord>, comments: map<string, CommentRecord>, likes: set<LikeKey>, id: string)
    requires WellFormedIn(posts, comments, likes) && ThreadsIn(comments)
    requires CountersMatchIn(posts, comments, likes)
    ensures var comments' := WithoutComments(comments, CommentsOn(comments, id));
            var likes' := set l | l in likes && l.post_id != id;
            CountersMatchIn(posts - {id}, comments', likes')
  {
    var comments' := WithoutComments(comments, CommentsOn(comments, id));
    var likes' := set l | l in likes && l.post_id != id;
    PostRemovalKeepsSurvivors(comments, id);
    forall q | q in posts - {id}
      ensures LikesOf(likes', q) == LikesOf(likes, q)
      ensures CommentsOf(comments', q) == CommentsOf(comments, q)
    {
    }
    forall q | q in comments'
      ensures RepliesOf(comments', q) == RepliesOf(comments, q)
    {
    }
  }

  // ---------------------------------------------------------------------------
  // the liked flag on a page of posts

  /** A post of a page, flagged with whether the viewer likes it. */
  datatype FlaggedPost = FlaggedPost(post: PostRecord, is_liked_by_current_user: bool)

  /** The flagged posts, and the ids the likes were looked up with (`None`: no lookup). */
  datatype LikedPage = LikedPage(items: seq<FlaggedPost>, lookedUp: Option<seq<string>>)

  predicate NoDuplicates(xs: seq<string>) {
    forall i, j :: 0 <= i < j < |xs| ==> xs[i] != xs[j]
  }

  /** `new Array(...new Set(xs))`: the distinct values, each at its first occurrence. */
  function Dedup(xs: seq<string>): (r: seq<string>)
    ensures NoDuplicates(r)
    ensures forall x :: x in r <==> x in xs
    ensures |r| <= |xs|
  {
    if |xs| == 0 then []
    else
      var r := Dedup(xs[..|xs| - 1]);
      assert xs == xs[..|xs| - 1] + [xs[|xs| - 1]];
      if xs[|xs| - 1] in r then r else r + [xs[|xs| - 1]]
  }

  /** The likes `getPostLikesByPostIdsAndUserId` fetches: the viewer's likes on the given posts. */
  function LikesOnPostsBy(likes: set<LikeKey>, ids: seq<string>, user: string): set<LikeKey> {
    set l | l in likes && l.post_id in ids && l.user_id == user
  }

  /** `addIsLikedByCurrentUserToPost`. */
  function AddIsLikedByCurrentUserToPost(posts: seq<PostRecord>, likes: set<LikeKey>, user: string): (r: LikedPage)
    ensures r.lookedUp.None? <==> |posts| == 0
    ensures |r.items| == |posts|
    ensures forall i :: 0 <= i < |posts| ==>
      r.items[i].post == posts[i] &&
      (r.items[i].is_liked_by_current_user <==> LikeKey(posts[i].id, user) in likes)
    ensures r.lookedUp.Some? ==> NoDuplicates(r.lookedUp.value)
    ensures r.lookedUp.Some? ==>
      forall x :: x in r.lookedUp.value <==> exists i :: 0 <= i < |posts| && posts[i].id == x
  {
    if |posts| == 0 then LikedPage([], None)
    else
      var allIds := seq(|posts|, i requires 0 <= i < |posts| => posts[i].id);
      var ids := Dedup(allIds);
      var fetched := LikesOnPostsBy(likes, ids, user);
      var likedIds := set l | l in fetched :: l.post_id;
      var items := seq(|posts|, i requires 0 <= i < |posts| => FlaggedPost(posts[i], posts[i].id in likedIds));
      assert forall i :: 0 <= i < |posts| ==> allIds[i] == posts[i].id;
      assert forall i :: 0 <= i < |posts| ==> LikeKey(posts[i].id, user) in likes ==> LikeKey(posts[i].id, user) in fetched;
      LikedPage(items, Some(ids))
  }

  /** The keys a user's likes on `ids` can have. */
  ghost function KeysOn(ids: seq<string>, user: string): set<LikeKey> {
    set i | i in ids :: LikeKey(i, user)
  }

  lemma {:induction false} KeysOnSize(ids: seq<string>, user: string)
    ensures |KeysOn(ids, user)| <= |ids|
  {
    if |ids| > 0 {
      var init := ids[..|ids| - 1];
      KeysOnSize(init, user);
      assert ids == init + [ids[|ids| - 1]];
      assert KeysOn(ids, user) == KeysOn(init, user) + {LikeKey(ids[|ids| - 1], user)};
    }
  }

  /** The lookup is capped at `take(ids.length)` rows; a user has at most one like per post,
      so the cap never drops a like. */
  lemma LookupFitsTake(likes: set<LikeKey>, ids: seq<string>, user: string)
    ensures |LikesOnPostsBy(likes, ids, user)| <= |ids|
  {
    var fetched, keys := LikesOnPostsBy(likes, ids, user), KeysOn(ids, user);
    assert fetched <= keys;
    assert keys == fetched + (keys - fetched);
    KeysOnSize(ids, user);
  }
}
