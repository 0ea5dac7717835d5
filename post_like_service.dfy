/** `PostLikeService`: liking and unliking a post, each guarded before any write, each
    keeping the post's `likes_count` in step with its likes. */
module PostLikes {
  import opened Common
  import opened Store
  import opened Posts

  const AlreadyLiked := "Já gostou do post"
  const OwnPost := "Não pode gostar do próprio post"
  const NotLikedYet := "Post ainda não foi gostado"
  const NotYourLike := "Proíbido"

  /** Adding a like on an existing post and raising that post's counter keeps the schema's
      guarantees and keeps every counter equal to what it counts. */
  lemma LikeKeepsInvariants(
    posts: map<string, PostRecord>, comments: map<string, CommentRecord>, likes: set<LikeKey>, key: LikeKey)
    requires WellFormedIn(posts, comments, likes)
    requires key.post_id in posts && key !in likes
    ensures var posts' := posts[key.post_id := Recount(posts[key.post_id], LikesCount, Increment)];
            && WellFormedIn(posts', comments, likes + {key})
            && (CountersMatchIn(posts, comments, likes) ==> CountersMatchIn(posts', comments, likes + {key}))
  {
    var posts' := posts[key.post_id := Recount(posts[key.post_id], LikesCount, Increment)];
    if CountersMatchIn(posts, comments, likes) {
      forall q | q in posts'
        ensures posts'[q].likes_count == |LikesOf(likes + {key}, q)|
      {
        LikesOfInsert(likes, key, q);
      }
    }
  }

  /** Removing an existing like and lowering its post's counter keeps the schema's
      guarantees and every counter right; with the counters right beforehand, the counter
      is at least one, so the floor at zero never applies. */
  lemma UnlikeKeepsInvariants(
    posts: map<string, PostRecord>, comments: map<string, CommentRecord>, likes: set<LikeKey>, key: LikeKey)
    requires WellFormedIn(posts, comments, likes)
    requires key in likes
    ensures key.post_id in posts
    ensures var posts' := posts[key.post_id := Recount(posts[key.post_id], LikesCount, Decrement)];
            && WellFormedIn(posts', comments, likes - {key})
            && (CountersMatchIn(posts, comments, likes) ==>
                  posts[key.post_id].likes_count >= 1 && CountersMatchIn(posts', comments, likes - {key}))
  {
    var posts' := posts[key.post_id := Recount(posts[key.post_id], LikesCount, Decrement)];
    if CountersMatchIn(posts, comments, likes) {
      assert key in LikesOf(likes, key.post_id);
      forall q | q in posts'
        ensures posts'[q].likes_count == |LikesOf(likes - {key}, q)|
      {
        LikesOfRemove(likes, key, q);
      }
    }
  }

  class PostLikeService {
    const db: Database
    const postService: PostService

    constructor (postService: PostService)
      ensures this.postService == postService && db == postService.db
    {
      this.postService := postService;
      db := postService.db;
    }

    /** `likePost`: refused when the user already likes the post, when the post does not
        exist, or when it is the user's own post; otherwise the like is saved and the
        post's `likes_count` goes up by one. */
    method LikePost(postId: string, user: string) returns (r: Result<LikeKey>)
      requires postService.db == db && db.WellFormed()
      modifies db
      ensures r.Ok? <==>
        LikeKey(postId, user) !in old(db.likes) && postId in old(db.posts) && old(db.posts)[postId].author_id != user
      ensures LikeKey(postId, user) in old(db.likes) ==> r == Err(Forbidden(AlreadyLiked))
      ensures LikeKey(postId, user) !in old(db.likes) && postId !in old(db.posts) ==> r == Err(NotFound(PostNotFound))
      ensures LikeKey(postId, user) !in old(db.likes) && postId in old(db.posts) && old(db.posts)[postId].author_id == user ==>
        r == Err(Forbidden(OwnPost))
      ensures r.Err? ==> unchanged(db)
      ensures r.Ok? ==>
        && r.value == LikeKey(postId, user)
        && db.likes == old(db.likes) + {r.value}
        && db.posts == old(db.posts)[postId := Recount(old(db.posts)[postId], LikesCount, Increment)]
        && db.comments == old(db.comments)
        && db.writes == old(db.writes) + [LikeInserted(r.value), PostCounterSet(postId, LikesCount, old(db.posts)[postId].likes_count + 1)]
      ensures db.WellFormed() && (old(db.ThreadsStayInPost()) ==> db.ThreadsStayInPost())
      ensures old(db.CountersMatch()) ==> db.CountersMatch()
    {
      if LikeKey(postId, user) in db.likes {
        return Err(Forbidden(AlreadyLiked));
      }
      var found := postService.GetPostById(postId, None);
      if found.Err? {
        return Err(found.error);
      }
      var post := found.value.post;
      if post.author_id == user {
        return Err(Forbidden(OwnPost));
      }
      var like := LikeKey(post.id, user);
      LikeKeepsInvariants(db.posts, db.comments, db.likes, like);
      db.InsertLike(like);
      postService.UpdateCounts(post, LikesCount, Increment);
      r := Ok(like);
    }

    /** `deleteLike`: only the user who made a like may remove it. */
    method DeleteLike(like: LikeKey, user: string) returns (r: Result<()>)
      modifies db
      ensures r.Ok? <==> like.user_id == user
      ensures r.Err? ==> r.error == Forbidden(NotYourLike) && unchanged(db)
      ensures r.Ok? ==>
        && db.likes == old(db.likes) - {like}
        && db.posts == old(db.posts) && db.comments == old(db.comments)
        && db.writes == old(db.writes) + [LikeDeleted(like)]
    {
      if like.user_id != user {
        return Err(Forbidden(NotYourLike));
      }
      db.RemoveLike(like);
      r := Ok(());
    }

    /** `removeLike`: refused when the user does not like the post; otherwise the like is
        removed and the post's `likes_count` goes down by one, floored at zero. The
        ownership check inside `deleteLike` always passes here, since the like was found
        by this user's id. */
    method RemoveLike(postId: string, user: string) returns (r: Result<()>)
      requires postService.db == db && db.WellFormed()
      modifies db
      ensures r.Ok? <==> LikeKey(postId, user) in old(db.likes)
      ensures r.Err? ==> r.error == Forbidden(NotLikedYet) && unchanged(db)
      ensures r.Ok? ==>
        && db.likes == old(db.likes) - {LikeKey(postId, user)}
        && db.posts == old(db.posts)[postId := Recount(old(db.posts)[postId], LikesCount, Decrement)]
        && db.comments == old(db.comments)
        && db.writes == old(db.writes) + [LikeDeleted(LikeKey(postId, user))] +
                        CounterWrite(old(db.posts)[postId], LikesCount, Decrement)
      ensures db.WellFormed() && (old(db.ThreadsStayInPost()) ==> db.ThreadsStayInPost())
      ensures old(db.CountersMatch()) ==> db.CountersMatch()
    {
      var like := LikeKey(postId, user);
      if like !in db.likes {
        return Err(Forbidden(NotLikedYet));
      }
      var post := db.LoadPost(like.post_id);
      UnlikeKeepsInvariants(db.posts, db.comments, db.likes, like);
      var deleted := DeleteLike(like, user);
      postService.UpdateCounts(post, LikesCount, Decrement);
      r := deleted;
    }
  }
}
