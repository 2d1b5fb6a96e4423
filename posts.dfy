/**
 * Posts of internal/storage/postStorage.go as values: the records, the post
 * AddPost builds, and CastVote, the post a vote operation stores, with the
 * lemmas that the score and vote invariants survive every vote.
 */
module Posts {
  import opened Votes

  /** PostType is a string; the store knows two of its values. */
  type PostType = string

  const TEXT: PostType := "text"
  const LINK: PostType := "link"

  /** A submission as the client sends it. */
  datatype RawPost = RawPost(postType: PostType, category: string, title: string, content: string)

  datatype PostAuthor = PostAuthor(name: string, id: string)

  datatype Comment = Comment(id: string, body: string, createdTime: string, author: PostAuthor)

  /** A stored post; the first four fields are those of its RawPost. */
  datatype Post = Post(
    postType: PostType,
    category: string,
    title: string,
    content: string,
    id: string,
    author: PostAuthor,
    score: int,
    views: int,
    createdTime: string,
    upvotePercentage: int,
    votes: seq<Vote>,
    comments: seq<Comment>)

  /**
   * What every stored post keeps: its score is the net of its votes, no user
   * votes twice, every vote is up or down, and the percentage is up to date.
   */
  predicate WellFormed(p: Post) {
    && p.score == Sum(p.votes)
    && UniqueVoters(p.votes)
    && AllCast(p.votes)
    && p.upvotePercentage == Percentage(p.votes)
  }

  /**
   * The post AddPost stores: the raw fields copied, the author as given,
   * score 1, one view, 100 percent, the author's own up-vote, no comments.
   * The fresh id and the creation time are parameters.
   */
  function NewPost(raw: RawPost, authorName: string, authorID: string, id: string, createdTime: string): Post {
    Post(raw.postType, raw.category, raw.title, raw.content, id,
         PostAuthor(authorName, authorID), 1, 1, createdTime, 100,
         [Vote(authorID, UPVOTE)], [])
  }

  /** A new post satisfies the invariant. */
  lemma NewPostWellFormed(raw: RawPost, authorName: string, authorID: string, id: string, createdTime: string)
    ensures var p := NewPost(raw, authorName, authorID, id, createdTime);
      && WellFormed(p)
      && p.votes == [Vote(authorID, UPVOTE)]
      && p.score == 1 && p.upvotePercentage == 100
  {
    var votes := [Vote(authorID, UPVOTE)];
    assert votes[..0] == [];
  }

  /**
   * The post as stored after `user` casts `newVote` (UPVOTE for UpvotePost,
   * DOWNVOTE for DownvotePost, NOVOTE for UnvotePost): unchanged when the vote
   * repeats the user's current one; otherwise the vote list is replaced, the
   * score moves by the new direction minus the old one, and the percentage is
   * recomputed. Nothing else changes.
   */
  function CastVote(p: Post, user: string, newVote: UpDownVote): Post {
    if IsRepeat(p.votes, user, newVote) then p
    else
      var votes := Replaced(p.votes, user, newVote);
      p.(votes := votes,
         score := p.score + newVote - PrevVote(p.votes, user),
         upvotePercentage := Percentage(votes))
  }

  /**
   * The post a vote operation returns. For a repeated vote the source hands
   * back its working copy, whose vote list has already been rewritten by
   * updateVote (the user's vote moved to the end), without storing it.
   */
  function VoteReply(p: Post, user: string, newVote: UpDownVote): Post {
    if IsRepeat(p.votes, user, newVote) then p.(votes := Replaced(p.votes, user, newVote))
    else CastVote(p, user, newVote)
  }

  /** Only the vote fields of a post change under a vote. */
  predicate SameButVotes(p: Post, q: Post) {
    q == p.(votes := q.votes, score := q.score, upvotePercentage := q.upvotePercentage)
  }

  // ---------------------------------------------------------------------
  // Lemmas

  /**
   * Every vote operation keeps the invariant, leaves the rest of the post
   * alone, gives the user exactly the new vote (or none for NOVOTE), and
   * leaves every other user's votes as they were.
   */
  lemma CastVoteWellFormed(p: Post, user: string, newVote: UpDownVote)
    requires WellFormed(p)
    ensures var q := CastVote(p, user, newVote);
      && WellFormed(q)
      && SameButVotes(p, q)
      && PrevVote(q.votes, user) == newVote
      && (HasVote(q.votes, user) <==> newVote != NOVOTE)
      && Others(q.votes, user) == Others(p.votes, user)
  {
    var q := CastVote(p, user, newVote);
    if !IsRepeat(p.votes, user, newVote) {
      SumReplaced(p.votes, user, newVote);
      UniqueReplaced(p.votes, user, newVote);
      PrevVoteReplaced(p.votes, user, newVote);
      AllCastReplaced(p.votes, user, newVote);
      OthersReplaced(p.votes, user, newVote);
    }
  }

  /**
   * The nine transitions of the score, by the user's old vote (none, up,
   * down) and the new one; the two repeats store nothing.
   */
  lemma ScoreTransitions(p: Post, user: string)
    ensures PrevVote(p.votes, user) == NOVOTE ==>
      && CastVote(p, user, UPVOTE).score == p.score + 1
      && CastVote(p, user, DOWNVOTE).score == p.score - 1
      && CastVote(p, user, NOVOTE).score == p.score
    ensures PrevVote(p.votes, user) == UPVOTE ==>
      && CastVote(p, user, UPVOTE) == p
      && CastVote(p, user, DOWNVOTE).score == p.score - 2
      && CastVote(p, user, NOVOTE).score == p.score - 1
    ensures PrevVote(p.votes, user) == DOWNVOTE ==>
      && CastVote(p, user, UPVOTE).score == p.score + 2
      && CastVote(p, user, DOWNVOTE) == p
      && CastVote(p, user, NOVOTE).score == p.score + 1
  {
  }

  /** Casting the same vote twice is the same as casting it once. */
  lemma CastVoteIdempotent(p: Post, user: string, newVote: UpDownVote)
    requires WellFormed(p)
    ensures CastVote(CastVote(p, user, newVote), user, newVote) == CastVote(p, user, newVote)
  {
    var q := CastVote(p, user, newVote);
    CastVoteWellFormed(p, user, newVote);
    if newVote == NOVOTE {
      assert FirstIndex(q.votes, user) == |q.votes|;
      assert Replaced(q.votes, user, NOVOTE) == q.votes;
    }
  }

  /**
   * Only the last vote counts: after two votes by one user the score is the
   * original score plus the second direction minus the user's original vote.
   */
  lemma VoteTwice(p: Post, user: string, first: UpDownVote, second: UpDownVote)
    requires WellFormed(p)
    ensures var q := CastVote(p, user, first);
      var q' := CastVote(q, user, second);
      && q'.score == q.score + second - first
      && q'.score == p.score + second - PrevVote(p.votes, user)
      && PrevVote(q'.votes, user) == second
      && Others(q'.votes, user) == Others(p.votes, user)
  {
    CastVoteWellFormed(p, user, first);
    CastVoteWellFormed(CastVote(p, user, first), user, second);
  }

  /** Up-votes applied one user after another. */
  function UpvoteAll(p: Post, users: seq<string>): Post
    decreases |users|
  {
    if users == [] then p else UpvoteAll(CastVote(p, users[0], UPVOTE), users[1..])
  }

  /**
   * Distinct users who had not voted each up-vote a post whose votes are all
   * up: the score grows by their number and the percentage stays 100.
   */
  lemma {:induction false} UpvoteAllScore(p: Post, users: seq<string>)
    requires WellFormed(p) && AllUp(p.votes) && p.votes != []
    requires forall i, j | 0 <= i < j < |users| :: users[i] != users[j]
    requires forall i, k | 0 <= i < |users| && 0 <= k < |p.votes| :: p.votes[k].userID != users[i]
    ensures var q := UpvoteAll(p, users);
      && WellFormed(q)
      && q.score == p.score + |users|
      && |q.votes| == |p.votes| + |users|
      && q.upvotePercentage == 100
    decreases |users|
  {
    if users == [] {
      PercentageEndpoints(p.votes);
    } else {
      var u := users[0];
      var q := CastVote(p, u, UPVOTE);
      assert FirstIndex(p.votes, u) == |p.votes|;
      assert q.votes == p.votes + [Vote(u, UPVOTE)];
      CastVoteWellFormed(p, u, UPVOTE);
      AllUpReplaced(p.votes, u);
      var rest := users[1..];
      assert forall i, k | 0 <= i < |rest| && 0 <= k < |q.votes| :: q.votes[k].userID != rest[i] by {
        forall i, k | 0 <= i < |rest| && 0 <= k < |q.votes|
          ensures q.votes[k].userID != rest[i]
        {
          assert rest[i] == users[i + 1];
        }
      }
      UpvoteAllScore(q, rest);
    }
  }

  /**
   * N distinct users other than the author up-vote a new post, in any order:
   * the score is 1 + N and the percentage is 100.
   */
  lemma NewPostUpvotes(raw: RawPost, authorName: string, authorID: string, id: string, createdTime: string, users: seq<string>)
    requires forall i, j | 0 <= i < j < |users| :: users[i] != users[j]
    requires forall i | 0 <= i < |users| :: users[i] != authorID
    ensures var q := UpvoteAll(NewPost(raw, authorName, authorID, id, createdTime), users);
      q.score == 1 + |users| && q.upvotePercentage == 100
  {
    var p := NewPost(raw, authorName, authorID, id, createdTime);
    NewPostWellFormed(raw, authorName, authorID, id, createdTime);
    UpvoteAllScore(p, users);
  }

  /**
   * A new post that another user up-votes and then down-votes ends with
   * score 0 and percentage 50: the author's up-vote and the other user's
   * down-vote.
   */
  lemma UpThenDownExample(raw: RawPost, authorName: string, authorID: string, id: string, createdTime: string, other: string)
    requires other != authorID
    ensures var p := NewPost(raw, authorName, authorID, id, createdTime);
      var q := CastVote(p, other, UPVOTE);
      var q' := CastVote(q, other, DOWNVOTE);
      && q.score == 2 && q.upvotePercentage == 100
      && q'.score == 0 && q'.upvotePercentage == 50
      && q'.votes == [Vote(authorID, UPVOTE), Vote(other, DOWNVOTE)]
  {
    var p := NewPost(raw, authorName, authorID, id, createdTime);
    var q := CastVote(p, other, UPVOTE);
    assert FirstIndex(p.votes, other) == 1;
    assert q.votes == [Vote(authorID, UPVOTE), Vote(other, UPVOTE)];
    assert UpvoteCount(q.votes) == 2 by {
      assert q.votes[..1] == [Vote(authorID, UPVOTE)];
      assert q.votes[..1][..0] == [];
    }
    assert FirstIndex(q.votes, other) == 1 by {
      assert q.votes[1..] == [Vote(other, UPVOTE)];
    }
    var v := [Vote(authorID, UPVOTE), Vote(other, DOWNVOTE)];
    assert Replaced(q.votes, other, DOWNVOTE) == v by {
      assert Without(q.votes, 1) == [Vote(authorID, UPVOTE)];
    }
    assert UpvoteCount(v) == 1 by {
      assert v[..1] == [Vote(authorID, UPVOTE)];
      assert v[..1][..0] == [];
    }
  }
}
