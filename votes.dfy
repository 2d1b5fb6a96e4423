/**
 * The vote list of one post (internal/storage/postStorage.go): the helper
 * updateVote that replaces a user's vote, countUpvotePercentage, and the
 * specification functions and lemmas they are proved against.
 */
module Votes {

  /** UpDownVote: up is 1, down is -1, "no vote" is 0. */
  type UpDownVote = x: int | -1 <= x <= 1

  const UPVOTE: UpDownVote := 1
  const DOWNVOTE: UpDownVote := -1
  const NOVOTE: UpDownVote := 0

  datatype Vote = Vote(userID: string, vote: UpDownVote)

  // ---------------------------------------------------------------------
  // Specification functions

  /** The net value of a vote list: the sum of its directions. */
  function Sum(votes: seq<Vote>): (r: int)
    ensures -|votes| <= r <= |votes|
  {
    if votes == [] then 0 else Sum(votes[..|votes| - 1]) + votes[|votes| - 1].vote
  }

  /** The number of up-votes in a vote list. */
  function UpvoteCount(votes: seq<Vote>): (r: nat)
    ensures r <= |votes|
  {
    if votes == [] then 0
    else UpvoteCount(votes[..|votes| - 1]) + (if votes[|votes| - 1].vote == UPVOTE then 1 else 0)
  }

  /**
   * The up-vote percentage, as an integer: 0 for no votes, otherwise the
   * floor of 100 * up-votes / votes.
   */
  function Percentage(votes: seq<Vote>): (r: int)
    ensures 0 <= r <= 100
    ensures votes == [] ==> r == 0
    ensures UpvoteCount(votes) == 0 ==> r == 0
    ensures votes != [] && UpvoteCount(votes) == |votes| ==> r == 100
  {
    if votes == [] then 0
    else
      PercentBounds(UpvoteCount(votes), |votes|);
      100 * UpvoteCount(votes) / |votes|
  }

  lemma PercentBounds(up: nat, n: nat)
    requires 0 < n && up <= n
    ensures 0 <= 100 * up / n <= 100
    ensures up == 0 ==> 100 * up / n == 0
    ensures up == n ==> 100 * up / n == 100
  {
    DivAtMost(100 * up, n, 100);
    if up == n {
      DivAtLeast(100 * n, n, 100);
    }
  }

  lemma PositiveFactor(a: int, n: int)
    requires n > 0 && a * n > 0
    ensures a > 0
  {
  }

  lemma DivAtLeast(x: int, n: int, c: int)
    requires n > 0 && c * n <= x
    ensures c <= x / n
  {
    var q, r := x / n, x % n;
    assert x == q * n + r;
    assert (q - c + 1) * n == q * n - c * n + n;
    PositiveFactor(q - c + 1, n);
  }

  lemma DivAtMost(x: int, n: int, c: int)
    requires n > 0 && 0 <= x <= c * n
    ensures x / n <= c
  {
    assert x == (x / n) * n + x % n;
  }

  /** The index of the first vote cast by `user`, or |votes| if there is none. */
  function FirstIndex(votes: seq<Vote>, user: string): (i: nat)
    ensures i <= |votes|
    ensures i < |votes| ==> votes[i].userID == user
    ensures forall j | 0 <= j < i :: votes[j].userID != user
  {
    if votes == [] then 0
    else if votes[0].userID == user then 0
    else 1 + FirstIndex(votes[1..], user)
  }

  predicate HasVote(votes: seq<Vote>, user: string) {
    FirstIndex(votes, user) < |votes|
  }

  /** The direction of the user's (first) vote, or NOVOTE when there is none. */
  function PrevVote(votes: seq<Vote>, user: string): UpDownVote {
    var i := FirstIndex(votes, user);
    if i < |votes| then votes[i].vote else NOVOTE
  }

  /** A vote that repeats the user's current one, which the store ignores. */
  predicate IsRepeat(votes: seq<Vote>, user: string, newVote: UpDownVote) {
    newVote != NOVOTE && PrevVote(votes, user) == newVote
  }

  /** The list without the vote at index i. */
  function Without(votes: seq<Vote>, i: nat): seq<Vote>
    requires i < |votes|
  {
    votes[..i] + votes[i + 1..]
  }

  /** The elements of Without(votes, i), by index into votes. */
  lemma WithoutAt(votes: seq<Vote>, i: nat)
    requires i < |votes|
    ensures |Without(votes, i)| == |votes| - 1
    ensures forall a | 0 <= a < |votes| - 1 :: Without(votes, i)[a] == votes[if a < i then a else a + 1]
  {
  }

  /**
   * The vote list after `user` casts `newVote`: the user's first vote is
   * taken out, and a vote with the new direction is appended unless the
   * new direction is NOVOTE.
   */
  function Replaced(votes: seq<Vote>, user: string, newVote: UpDownVote): seq<Vote> {
    var i := FirstIndex(votes, user);
    var rest := if i < |votes| then Without(votes, i) else votes;
    if newVote != NOVOTE then rest + [Vote(user, newVote)] else rest
  }

  /** The votes of every user other than `user`, in order. */
  function Others(votes: seq<Vote>, user: string): (r: seq<Vote>)
    ensures |r| <= |votes|
  {
    if votes == [] then []
    else
      var last := votes[|votes| - 1];
      Others(votes[..|votes| - 1], user) + (if last.userID == user then [] else [last])
  }

  /** No user has more than one vote. */
  predicate UniqueVoters(votes: seq<Vote>) {
    forall i, j | 0 <= i < j < |votes| :: votes[i].userID != votes[j].userID
  }

  /** Every stored vote has a direction (up or down). */
  predicate AllCast(votes: seq<Vote>) {
    forall i | 0 <= i < |votes| :: votes[i].vote != NOVOTE
  }

  predicate AllUp(votes: seq<Vote>) {
    forall i | 0 <= i < |votes| :: votes[i].vote == UPVOTE
  }

  predicate NoneUp(votes: seq<Vote>) {
    forall i | 0 <= i < |votes| :: votes[i].vote != UPVOTE
  }

  // ---------------------------------------------------------------------
  // The source's two helpers

  /**
   * updateVote: finds the user's vote, removes it, and appends the new one
   * unless it is NOVOTE; reports the old direction and whether one was found.
   */
  method UpdateVote(votes: seq<Vote>, userID: string, newVote: UpDownVote)
    returns (votes': seq<Vote>, oldVote: UpDownVote, found: bool)
    ensures found == HasVote(votes, userID)
    ensures oldVote == PrevVote(votes, userID)
    ensures votes' == Replaced(votes, userID, newVote)
  {
    votes', oldVote, found := votes, NOVOTE, false;
    var i := 0;
    while i < |votes|
      invariant 0 <= i <= |votes|
      invariant forall j | 0 <= j < i :: votes[j].userID != userID
      invariant votes' == votes && oldVote == NOVOTE && !found
    {
      if votes[i].userID == userID {
        oldVote := votes[i].vote;
        if i == |votes| - 1 {
          votes' := votes[..|votes| - 1];
          assert votes' == Without(votes, i);
        } else {
          votes' := votes[..i] + votes[i + 1..];
          assert votes' == Without(votes, i);
        }
        found := true;
        break;
      }
      i := i + 1;
    }
    if newVote != NOVOTE {
      votes' := votes' + [Vote(userID, newVote)];
    }
  }

  /** countUpvotePercentage, computed with integer division (see README). */
  method CountUpvotePercentage(votes: seq<Vote>) returns (pct: int)
    ensures pct == Percentage(votes)
  {
    if |votes| == 0 {
      return 0;
    }
    var upvotes := 0;
    for i := 0 to |votes|
      invariant upvotes == UpvoteCount(votes[..i])
    {
      assert votes[..i + 1][..i] == votes[..i];
      if votes[i].vote == UPVOTE {
        upvotes := upvotes + 1;
      }
    }
    assert votes[..|votes|] == votes;
    pct := 100 * upvotes / |votes|;
  }

  // ---------------------------------------------------------------------
  // Lemmas

  lemma {:induction false} SumConcat(a: seq<Vote>, b: seq<Vote>)
    ensures Sum(a + b) == Sum(a) + Sum(b)
    decreases |b|
  {
    if b != [] {
      var b' := b[..|b| - 1];
      assert (a + b)[..|a + b| - 1] == a + b';
      SumConcat(a, b');
    } else {
      assert a + b == a;
    }
  }

  lemma {:induction false} OthersConcat(a: seq<Vote>, b: seq<Vote>, user: string)
    ensures Others(a + b, user) == Others(a, user) + Others(b, user)
    decreases |b|
  {
    if b != [] {
      var b' := b[..|b| - 1];
      assert (a + b)[..|a + b| - 1] == a + b';
      OthersConcat(a, b', user);
    } else {
      assert a + b == a;
    }
  }

  lemma {:induction false} UpvoteCountAllUp(votes: seq<Vote>)
    requires AllUp(votes)
    ensures UpvoteCount(votes) == |votes|
    decreases |votes|
  {
    if votes != [] {
      UpvoteCountAllUp(votes[..|votes| - 1]);
    }
  }

  lemma {:induction false} UpvoteCountNoneUp(votes: seq<Vote>)
    requires NoneUp(votes)
    ensures UpvoteCount(votes) == 0
    decreases |votes|
  {
    if votes != [] {
      UpvoteCountNoneUp(votes[..|votes| - 1]);
    }
  }

  /** countUpvotePercentage is 100 when every vote is up and 0 when none is. */
  lemma PercentageEndpoints(votes: seq<Vote>)
    ensures votes != [] && AllUp(votes) ==> Percentage(votes) == 100
    ensures NoneUp(votes) ==> Percentage(votes) == 0
  {
    if AllUp(votes) {
      UpvoteCountAllUp(votes);
    }
    if NoneUp(votes) {
      UpvoteCountNoneUp(votes);
    }
  }

  /** Taking out the vote at index i takes its direction off the net value. */
  lemma SumWithout(votes: seq<Vote>, i: nat)
    requires i < |votes|
    ensures Sum(Without(votes, i)) == Sum(votes) - votes[i].vote
  {
    var front, back := votes[..i], votes[i + 1..];
    SplitAt(votes, i);
    SumConcat(front + [votes[i]], back);
    SumConcat(front, back);
    SumLast(front, votes[i]);
  }

  /** A list is its part before index i, the element at i, and the rest. */
  lemma SplitAt(votes: seq<Vote>, i: nat)
    requires i < |votes|
    ensures votes == (votes[..i] + [votes[i]]) + votes[i + 1..]
  {
    assert votes[..i + 1] == votes[..i] + [votes[i]];
    assert votes == votes[..i + 1] + votes[i + 1..];
  }

  lemma SumLast(front: seq<Vote>, x: Vote)
    ensures Sum(front + [x]) == Sum(front) + x.vote
  {
    assert (front + [x])[..|front|] == front;
  }

  /** Casting a vote changes the net value by the new direction minus the old one. */
  lemma SumReplaced(votes: seq<Vote>, user: string, newVote: UpDownVote)
    ensures Sum(Replaced(votes, user, newVote)) == Sum(votes) - PrevVote(votes, user) + newVote
  {
    var i := FirstIndex(votes, user);
    var rest := if i < |votes| then Without(votes, i) else votes;
    if i < |votes| {
      SumWithout(votes, i);
    }
    assert Sum(rest) == Sum(votes) - PrevVote(votes, user);
    if newVote != NOVOTE {
      var r := rest + [Vote(user, newVote)];
      assert r[..|r| - 1] == rest;
    }
  }

  /** Taking out a vote of `user` leaves the other users' votes as they were. */
  lemma OthersWithout(votes: seq<Vote>, i: nat, user: string)
    requires i < |votes| && votes[i].userID == user
    ensures Others(Without(votes, i), user) == Others(votes, user)
  {
    var front, back := votes[..i], votes[i + 1..];
    SplitAt(votes, i);
    OthersConcat(front + [votes[i]], back, user);
    OthersConcat(front, back, user);
    assert (front + [votes[i]])[..|front|] == front;
  }

  /** Casting a vote leaves every other user's votes as they were, in order. */
  lemma OthersReplaced(votes: seq<Vote>, user: string, newVote: UpDownVote)
    ensures Others(Replaced(votes, user, newVote), user) == Others(votes, user)
    ensures multiset(Others(Replaced(votes, user, newVote), user)) == multiset(Others(votes, user))
  {
    var i := FirstIndex(votes, user);
    var rest := if i < |votes| then Without(votes, i) else votes;
    if i < |votes| {
      OthersWithout(votes, i, user);
    }
    if newVote != NOVOTE {
      var r := rest + [Vote(user, newVote)];
      assert r[..|r| - 1] == rest;
    }
  }

  /**
   * Casting a vote keeps at most one vote per user, and afterwards the user
   * has exactly the new vote (as the last element) or, for NOVOTE, none.
   */
  lemma UniqueReplaced(votes: seq<Vote>, user: string, newVote: UpDownVote)
    requires UniqueVoters(votes)
    ensures var r := Replaced(votes, user, newVote);
      && UniqueVoters(r)
      && (newVote != NOVOTE ==> |r| > 0 && r[|r| - 1] == Vote(user, newVote))
      && (forall j | 0 <= j < |r| && r[j].userID == user :: newVote != NOVOTE && j == |r| - 1)
  {
    var i := FirstIndex(votes, user);
    var rest := if i < |votes| then Without(votes, i) else votes;
    if i < |votes| {
      WithoutAt(votes, i);
    }
    assert forall a | 0 <= a < |rest| :: rest[a].userID != user;
    assert UniqueVoters(rest);
  }

  /** After casting newVote, the user's vote is newVote (NOVOTE: no vote at all). */
  lemma PrevVoteReplaced(votes: seq<Vote>, user: string, newVote: UpDownVote)
    requires UniqueVoters(votes)
    ensures PrevVote(Replaced(votes, user, newVote), user) == newVote
    ensures HasVote(Replaced(votes, user, newVote), user) <==> newVote != NOVOTE
  {
    UniqueReplaced(votes, user, newVote);
  }

  /** A stored list stays made of cast votes. */
  lemma AllCastReplaced(votes: seq<Vote>, user: string, newVote: UpDownVote)
    requires AllCast(votes)
    ensures AllCast(Replaced(votes, user, newVote))
  {
    var i := FirstIndex(votes, user);
    if i < |votes| {
      WithoutAt(votes, i);
    }
  }

  /** An up-vote keeps a list of up-votes a list of up-votes. */
  lemma AllUpReplaced(votes: seq<Vote>, user: string)
    requires AllUp(votes)
    ensures AllUp(Replaced(votes, user, UPVOTE))
  {
    var i := FirstIndex(votes, user);
    if i < |votes| {
      WithoutAt(votes, i);
    }
  }
}
