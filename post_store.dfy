/**
 * PostInMemStorage of internal/storage/postStorage.go: a map from post id to
 * post, updated in place by AddPost, DeletePost and the three vote methods.
 */
module PostStore {
  import opened Results
  import opened Votes
  import opened Posts

  datatype PostError = PostNotFound(id: string)

  class PostInMemStorage {
    var posts: map<string, Post>

    /** Every post is stored under its own id and keeps the post invariant. */
    ghost predicate Valid()
      reads this
    {
      forall id | id in posts :: posts[id].id == id && WellFormed(posts[id])
    }

    constructor ()
      ensures Valid() && posts == map[]
    {
      posts := map[];
    }

    /** Stores a new post under the fresh id (uuid.NewString() in the source). */
    method AddPost(rawPost: RawPost, authorName: string, authorID: string, id: string, createdTime: string)
      returns (post: Post)
      requires Valid() && id !in posts
      modifies this
      ensures Valid()
      ensures post == NewPost(rawPost, authorName, authorID, id, createdTime)
      ensures post.score == 1 && post.views == 1 && post.upvotePercentage == 100
      ensures post.votes == [Vote(authorID, UPVOTE)] && post.comments == []
      ensures posts == old(posts)[id := post]
    {
      // The literal follows the source's field-by-field assignments; it equals NewPost.
      post := Post(rawPost.postType, rawPost.category, rawPost.title, rawPost.content, id,
                   PostAuthor(authorName, authorID), 1, 1, createdTime, 100,
                   [Vote(authorID, UPVOTE)], []);
      NewPostWellFormed(rawPost, authorName, authorID, id, createdTime);
      posts := posts[post.id := post];
    }

    /** Removes the post; the author check is the caller's. */
    method DeletePost(id: string) returns (err: Outcome<PostError>)
      requires Valid()
      modifies this
      ensures Valid()
      ensures id in old(posts) ==> err == Pass && posts == old(posts) - {id}
      ensures id !in old(posts) ==> err == Fail(PostNotFound(id)) && posts == old(posts)
    {
      if id !in posts {
        return Fail(PostNotFound(id));
      }
      posts := posts - {id};
      err := Pass;
    }

    /** Every stored post once, in the map's (unspecified) iteration order. */
    method GetPosts() returns (list: seq<Post>)
      requires Valid()
      ensures |list| == |posts|
      ensures forall i | 0 <= i < |list| :: list[i].id in posts && posts[list[i].id] == list[i]
      ensures forall i, j | 0 <= i < j < |list| :: list[i].id != list[j].id
      ensures forall id | id in posts :: posts[id] in list
    {
      list := [];
      var rest := posts.Keys;
      while rest != {}
        invariant rest <= posts.Keys
        invariant |list| + |rest| == |posts|
        invariant forall i | 0 <= i < |list| :: list[i].id in posts && posts[list[i].id] == list[i] && list[i].id !in rest
        invariant forall i, j | 0 <= i < j < |list| :: list[i].id != list[j].id
        invariant forall id | id in posts && id !in rest :: posts[id] in list
        decreases |rest|
      {
        var id :| id in rest;
        assert posts[id].id == id;
        list := list + [posts[id]];
        rest := rest - {id};
      }
    }

    method GetPost(id: string) returns (r: Result<Post, PostError>)
      ensures id in posts ==> r == Ok(posts[id])
      ensures id !in posts ==> r == Err(PostNotFound(id))
    {
      if id !in posts {
        return Err(PostNotFound(id));
      }
      r := Ok(posts[id]);
    }

    method UpvotePost(postID: string, userID: string) returns (r: Result<Post, PostError>)
      requires Valid()
      modifies this
      ensures Valid()
      ensures postID !in old(posts) ==> r == Err(PostNotFound(postID)) && posts == old(posts)
      ensures postID in old(posts) ==>
        && posts == old(posts)[postID := CastVote(old(posts)[postID], userID, UPVOTE)]
        && r == Ok(VoteReply(old(posts)[postID], userID, UPVOTE))
    {
      if postID !in posts {
        return Err(PostNotFound(postID));
      }
      var post := posts[postID];
      var votes, oldVote, found := UpdateVote(post.votes, userID, UPVOTE);
      ghost var p0 := post;
      post := post.(votes := votes);
      if found && oldVote == UPVOTE {
        return Ok(post);
      }
      if found && oldVote == DOWNVOTE {
        post := post.(score := post.score + 2);
      } else {
        post := post.(score := post.score + 1);
      }
      assert post.score == p0.score + UPVOTE - oldVote;
      var pct := CountUpvotePercentage(post.votes);
      post := post.(upvotePercentage := pct);
      assert post == CastVote(p0, userID, UPVOTE);
      CastVoteWellFormed(p0, userID, UPVOTE);
      posts := posts[postID := post];
      r := Ok(post);
    }

    method DownvotePost(postID: string, userID: string) returns (r: Result<Post, PostError>)
      requires Valid()
      modifies this
      ensures Valid()
      ensures postID !in old(posts) ==> r == Err(PostNotFound(postID)) && posts == old(posts)
      ensures postID in old(posts) ==>
        && posts == old(posts)[postID := CastVote(old(posts)[postID], userID, DOWNVOTE)]
        && r == Ok(VoteReply(old(posts)[postID], userID, DOWNVOTE))
    {
      if postID !in posts {
        return Err(PostNotFound(postID));
      }
      var post := posts[postID];
      var votes, oldVote, found := UpdateVote(post.votes, userID, DOWNVOTE);
      ghost var p0 := post;
      post := post.(votes := votes);
      if found && oldVote == DOWNVOTE {
        return Ok(post);
      }
      if found && oldVote == UPVOTE {
        post := post.(score := post.score - 2);
      } else {
        post := post.(score := post.score - 1);
      }
      assert post.score == p0.score + DOWNVOTE - oldVote;
      var pct := CountUpvotePercentage(post.votes);
      post := post.(upvotePercentage := pct);
      assert post == CastVote(p0, userID, DOWNVOTE);
      CastVoteWellFormed(p0, userID, DOWNVOTE);
      posts := posts[postID := post];
      r := Ok(post);
    }

    method UnvotePost(postID: string, userID: string) returns (r: Result<Post, PostError>)
      requires Valid()
      modifies this
      ensures Valid()
      ensures postID !in old(posts) ==> r == Err(PostNotFound(postID)) && posts == old(posts)
      ensures postID in old(posts) ==>
        && posts == old(posts)[postID := CastVote(old(posts)[postID], userID, NOVOTE)]
        && r == Ok(posts[postID])
    {
      if postID !in posts {
        return Err(PostNotFound(postID));
      }
      var post := posts[postID];
      var votes, oldVote, found := UpdateVote(post.votes, userID, NOVOTE);
      ghost var p0 := post;
      post := post.(votes := votes);
      if found && oldVote == UPVOTE {
        post := post.(score := post.score - 1);
      }
      if found && oldVote == DOWNVOTE {
        post := post.(score := post.score + 1);
      }
      assert post.score == p0.score - oldVote;
      var pct := CountUpvotePercentage(post.votes);
      post := post.(upvotePercentage := pct);
      assert post == CastVote(p0, userID, NOVOTE);
      CastVoteWellFormed(p0, userID, NOVOTE);
      posts := posts[postID := post];
      r := Ok(post);
    }
  }
}
