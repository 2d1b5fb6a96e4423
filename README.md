# Reddit-clone content store in Dafny

A model of the in-memory store of a link/discussion-board backend written in Go
(`internal/storage`). The store has two parts:

- **Post store** (`PostInMemStorage`). It maps post ids to posts. `AddPost` builds a post
  with fixed starting values. `GetPost`, `GetPosts` and `DeletePost` look posts up or
  remove them. `UpvotePost`, `DownvotePost` and `UnvotePost` toggle one user's vote.
  A post also has a wire form, `MarshalJSON`/`UnmarshalJSON`, where the single content
  field appears under the key `text` or `url`.
- **User store** (`InMemoryStorage`). It maps user names to users. `AddUser` registers
  a user under a unique name. `GetUser` logs a user in and tells an unknown name apart
  from a wrong password.

Files and modules:

- `results.dfy` (`Results`) holds `Option`, `Result` and `Outcome`, which play the part
  of Go's `(value, error)` returns.
- `votes.dfy` (`Votes`) models the vote list. It has the helpers `updateVote` and
  `countUpvotePercentage` as methods with loops. They are proved against specification
  functions: `FirstIndex`, `PrevVote`, `Replaced`, `Sum`, `UpvoteCount`, `Percentage`
  and `Others`. Lemmas prove that replacing a vote keeps one vote per user, that it
  moves the net value by the new direction minus the old one, and that it leaves
  every other user's votes alone.
- `posts.dfy` (`Posts`) holds the post records and `NewPost`, the post `AddPost`
  builds. It also holds `CastVote`, the post as stored after a vote, and `VoteReply`,
  the post a vote operation returns. Its lemmas cover the invariant `WellFormed`,
  the nine score transitions, idempotence of a repeated vote, and N distinct
  up-votes on a new post.
- `post_store.dfy` (`PostStore`) is the class `PostInMemStorage`. Its `posts` field is
  a `map<string, Post>`. The object invariant `Valid` says every post is stored under
  its own id and is `WellFormed`. Each vote method keeps the source's own branches
  (+2 or +1, −2 or −1, −1 or +1). Each is proved to store exactly `CastVote`, whose
  score rule is the single formula "new direction minus old direction".
- `post_wire.dfy` (`PostWire`) is the wire form, over an abstract record
  `map<string, WireValue>`.
- `user_store.dfy` (`UserStore`) is the class `InMemoryStorage`. bcrypt is replaced by
  two functions fixed at construction. `hash` may fail, and `verify` accepts a password
  against its own hash (`SoundHasher`).

Inputs the source draws from the outside world are parameters here:

- the fresh ids from `uuid.NewString()` (`AddPost` requires its id to be unused);
- the creation time from `time.Now()`;
- the hashing primitive.

Behaviour of the code worth knowing:

- A post's score is the sum of all its votes, including the author's seed up-vote.
  The author can withdraw that vote: on a post with no other votes, the author's
  `UnvotePost` leaves score 0.
- `DeletePost` does no owner check. The check is in the HTTP handler
  (`internal/server/handlers/post.go:58`).
- The store has no comment operations. `Comments` only ever starts empty.
- A new post that another user up-votes, then down-votes, ends at score 0 and 50 %:
  one up-vote (the author's) out of two votes (`Posts.UpThenDownExample`).
- The percentage is truncated toward zero.

## Model

| member | source | states |
|---|---|---|
| `Votes.UpdateVote` | internal/storage/postStorage.go:248-266 | reports whether the user had a vote and its direction (NOVOTE when none); the new list is the old one without the user's first vote, plus the new vote unless it is NOVOTE |
| `Votes.CountUpvotePercentage` | internal/storage/postStorage.go:268-281 | the loop's count equals the number of up-votes; the result is 0 for no votes and 100·up/n otherwise |
| `Votes.Percentage` | internal/storage/postStorage.go:268-281 | the percentage lies in [0, 100]; it is 0 for an empty list or no up-votes, and 100 when every vote is up |
| `Votes.PercentageEndpoints` | internal/storage/postStorage.go:268-281 | a non-empty list of only up-votes gives 100; a list with no up-vote gives 0 |
| `Votes.FirstIndex` | internal/storage/postStorage.go:249-250 | the index found is the user's first vote, or the list's length when the user has none |
| `Votes.SumReplaced` | internal/storage/postStorage.go:248-266 | a replaced list's net value is the old net value minus the user's old direction plus the new one |
| `Votes.OthersReplaced` | internal/storage/postStorage.go:248-266 | other users' votes are unchanged, as a sequence and so as a multiset |
| `Votes.UniqueReplaced` | internal/storage/postStorage.go:248-266 | at most one vote per user is kept; after an up- or down-vote the user's only vote is the new one, at the end; after NOVOTE the user has none |
| `Votes.PrevVoteReplaced` | internal/storage/postStorage.go:248-266 | after the replacement the user's vote is the new direction, and the user has a vote exactly when it is not NOVOTE |
| `Posts.NewPostWellFormed` | internal/storage/postStorage.go:147-152 | a new post has score 1, percentage 100 and the author's single up-vote, and it satisfies the score/vote invariant |
| `Posts.CastVoteWellFormed` | internal/storage/postStorage.go:190-246 | every vote operation keeps score = sum of votes, one vote per user, only cast votes and an up-to-date percentage; it changes no other field; the user ends with the new vote (none for unvote); other users' votes are kept |
| `Posts.ScoreTransitions` | internal/storage/postStorage.go:195-245 | the score deltas: up +1 from none, +2 from down; down −1 from none, −2 from up; unvote −1 from up, +1 from down, 0 from none; a repeated up or down stores nothing |
| `Posts.CastVoteIdempotent` | internal/storage/postStorage.go:196-198 | casting the same vote twice stores the same post as casting it once |
| `Posts.VoteTwice` | internal/storage/postStorage.go:190-246 | after two votes by one user, the score depends only on the user's original vote and the last one (up then down is −2; from no prior vote, up then unvote restores the score) |
| `Posts.UpvoteAllScore` | internal/storage/postStorage.go:190-208 | N distinct users with no vote up-vote an all-up post: the score rises by N, the percentage is 100, and the invariant holds |
| `Posts.NewPostUpvotes` | internal/storage/postStorage.go:136-208 | N distinct non-author up-votes on a new post, in any order, give score 1 + N and percentage 100 |
| `Posts.UpThenDownExample` | internal/storage/postStorage.go:190-228 | a new post up-voted by another user has score 2 and 100 %; after that user switches to a down-vote it has score 0, 50 % and the votes [author up, user down] |
| `PostStore.PostInMemStorage.constructor` | internal/storage/postStorage.go:79-81 | the store starts empty |
| `PostStore.PostInMemStorage.AddPost` | internal/storage/postStorage.go:136-160 | stores and returns the new post (raw fields copied, author {name, id}, score 1, views 1, 100 %, the author's up-vote, no comments) under its fresh id; no other entry changes |
| `PostStore.PostInMemStorage.DeletePost` | internal/storage/postStorage.go:162-170 | a present id is removed and nothing else changes; an absent id gives a not-found error and the map is unchanged |
| `PostStore.PostInMemStorage.GetPosts` | internal/storage/postStorage.go:172-179 | every stored post exactly once, with no other elements |
| `PostStore.PostInMemStorage.GetPost` | internal/storage/postStorage.go:181-188 | the stored post for a present id, a not-found error otherwise; nothing changes |
| `PostStore.PostInMemStorage.UpvotePost` | internal/storage/postStorage.go:190-208 | not-found with the map unchanged, or exactly CastVote(post, user, UPVOTE) stored (a repeat stores nothing) and the working copy returned |
| `PostStore.PostInMemStorage.DownvotePost` | internal/storage/postStorage.go:210-228 | the same for DOWNVOTE |
| `PostStore.PostInMemStorage.UnvotePost` | internal/storage/postStorage.go:230-246 | the same for NOVOTE, which never short-circuits; returns the stored post |
| `PostWire.MarshalPost` | internal/storage/postStorage.go:83-110 | writes the tagged fields, plus `text` only for a text post and `url` only for a link post; decoding the result gives the post back for those types, and for any other type gives it back with the receiver's content |
| `PostWire.UnmarshalPost` | internal/storage/postStorage.go:112-134 | the content is `text` (for a text post) or `url` (for a link post), empty when absent, and otherwise the receiver's; it fails exactly when a read key holds the wrong kind of value |
| `UserStore.InMemoryStorage.constructor` | internal/storage/storage.go:31-33 | the user store starts empty |
| `UserStore.InMemoryStorage.GetUser` | internal/storage/storage.go:35-50 | ErrUserNotFound for an unknown name; ErrInvalidPassword when the check fails; otherwise the stored user; the map is only read |
| `UserStore.InMemoryStorage.AddUser` | internal/storage/storage.go:52-73 | a taken name gives ErrUserAlreadyExists and changes nothing; otherwise stores and returns {id, name, hash(password)} under the name and changes no other entry; names stay unique (each key is its user's name) |
| `UserStore.AddThenGetUser` | internal/storage/storage.go:35-73 | registering a new name, then logging in with the same password, returns the added user |

## Left out

- `Votes.CountUpvotePercentage`: computes the truncated integer 100·up/n. The source
  computes `int(float64(up)/float64(n)*100)`, which can be one lower (29 up-votes of
  100 give 28). Every other contract that mentions the percentage uses this integer
  value. Bounds and endpoints hold for both.
- Aliasing of Go slices between a stored post and its working copy. In a repeated
  vote, `slices.Delete` and `append` rewrite the stored post's vote array in place.
  The model uses value semantics, so the stored post is unchanged and only the
  returned copy shows the reordered votes (`Posts.VoteReply`).
- Locking (`sync.RWMutex`). The model is sequential. In the source only `AddPost` and
  the user store take the lock.
- `uuid.NewString()` and `time.Now()`. They are parameters, and `AddPost` requires the
  id to be unused.
- bcrypt: salting, the cost parameter and the constant-time comparison.
  `UserStore.SoundHasher` assumes only that `verify` accepts a password against its
  own hash. A failed `GenerateFromPassword` is `ErrHash`.
- `encoding/json`:
  - Keys match exactly, though Go matches them case-insensitively.
  - `null` values are not modelled.
  - Numbers are exact integers, though the intermediate `map[string]interface{}`
    holds them as `float64`.
  - Votes, authors and comments are single abstract values.
  - On a decode error the result is only the error. Go leaves the receiver partly
    overwritten.
- `PostWire.UnmarshalPost`: the error names one mismatched key, taken in the model's
  field order. Go reports the first mismatch in document order.
- Comments. The store has no comment operations, and `Comments` is only ever created
  empty.
- HTTP handlers, JWT signing, routing and server start-up (`internal/server`,
  `cmd/redditclone`). The sorting and filtering in the listing handlers is also left
  out.
