/**
 * The wire form of a post (Post.MarshalJSON / Post.UnmarshalJSON in
 * internal/storage/postStorage.go), over an abstract key/value record in
 * place of JSON text. The single content field travels under the key
 * "text" for a text post and "url" for a link post, and not at all otherwise.
 */
module PostWire {
  import opened Results
  import opened Votes
  import opened Posts

  /** A value of the record: the JSON kinds that the fields of a post use. */
  datatype WireValue =
    | WString(s: string)
    | WNumber(n: int)
    | WAuthor(author: PostAuthor)
    | WVotes(votes: seq<Vote>)
    | WComments(comments: seq<Comment>)

  type Wire = map<string, WireValue>

  /** A key holding a value of the wrong kind for its field. */
  datatype DecodeError = TypeMismatch(key: string)

  /** The keys of the fields every post is written with (content is not one). */
  const FieldKeys: set<string> :=
    {"type", "category", "title", "id", "author", "score", "views", "created",
     "upvotePercentage", "votes", "comments"}

  /** True when the post type carries its content on the wire. */
  predicate HasContentKey(t: PostType) {
    t == TEXT || t == LINK
  }

  /** The keys UnmarshalJSON reads: the fields and both content keys. */
  const DecodedKeys: set<string> := FieldKeys + {"text", "url"}

  /** The kind of value each key must hold. */
  predicate FitsKind(key: string, v: WireValue) {
    if key == "author" then v.WAuthor?
    else if key == "score" || key == "views" || key == "upvotePercentage" then v.WNumber?
    else if key == "votes" then v.WVotes?
    else if key == "comments" then v.WComments?
    else v.WString?
  }

  /**
   * MarshalJSON: the post's tagged fields, then its content under "text" or
   * "url" depending on its type.
   */
  method MarshalPost(p: Post) returns (result: Wire)
    ensures result.Keys == FieldKeys
      + (if p.postType == TEXT then {"text"} else {})
      + (if p.postType == LINK then {"url"} else {})
    ensures "content" !in result
    ensures p.postType == TEXT ==> result["text"] == WString(p.content)
    ensures p.postType == LINK ==> result["url"] == WString(p.content)
    ensures forall into: Post {:trigger UnmarshalPost(result, into)} ::
      UnmarshalPost(result, into)
        == Ok(if HasContentKey(p.postType) then p else p.(content := into.content))
  {
    result := map[
      "type" := WString(p.postType),
      "category" := WString(p.category),
      "title" := WString(p.title),
      "id" := WString(p.id),
      "author" := WAuthor(p.author),
      "score" := WNumber(p.score),
      "views" := WNumber(p.views),
      "created" := WString(p.createdTime),
      "upvotePercentage" := WNumber(p.upvotePercentage),
      "votes" := WVotes(p.votes),
      "comments" := WComments(p.comments)];
    if p.postType == TEXT {
      result := result["text" := WString(p.content)];
    } else if p.postType == LINK {
      result := result["url" := WString(p.content)];
    }
  }

  // Field decoders: an absent key leaves the receiver's value in place.

  function StringField(w: Wire, key: string, current: string): (r: Result<string, DecodeError>)
    ensures key !in w ==> r == Ok(current)
    ensures key in w && w[key].WString? ==> r == Ok(w[key].s)
    ensures r.Err? <==> key in w && !w[key].WString?
  {
    if key !in w then Ok(current)
    else if w[key].WString? then Ok(w[key].s)
    else Err(TypeMismatch(key))
  }

  function NumberField(w: Wire, key: string, current: int): Result<int, DecodeError> {
    if key !in w then Ok(current)
    else if w[key].WNumber? then Ok(w[key].n)
    else Err(TypeMismatch(key))
  }

  function AuthorField(w: Wire, key: string, current: PostAuthor): Result<PostAuthor, DecodeError> {
    if key !in w then Ok(current)
    else if w[key].WAuthor? then Ok(w[key].author)
    else Err(TypeMismatch(key))
  }

  function VotesField(w: Wire, key: string, current: seq<Vote>): Result<seq<Vote>, DecodeError> {
    if key !in w then Ok(current)
    else if w[key].WVotes? then Ok(w[key].votes)
    else Err(TypeMismatch(key))
  }

  function CommentsField(w: Wire, key: string, current: seq<Comment>): Result<seq<Comment>, DecodeError> {
    if key !in w then Ok(current)
    else if w[key].WComments? then Ok(w[key].comments)
    else Err(TypeMismatch(key))
  }

  /**
   * UnmarshalJSON into the receiver `into`: every field present in the
   * record overwrites the receiver's; "text" and "url" are read (empty when
   * absent) and the one matching the decoded type becomes the content; for
   * any other type the receiver's content stays.
   */
  function UnmarshalPost(w: Wire, into: Post): (r: Result<Post, DecodeError>)
    ensures r.Ok? && r.value.postType == TEXT ==>
      r.value.content == (if "text" in w && w["text"].WString? then w["text"].s else "")
    ensures r.Ok? && r.value.postType == LINK ==>
      r.value.content == (if "url" in w && w["url"].WString? then w["url"].s else "")
    ensures r.Ok? && !HasContentKey(r.value.postType) ==> r.value.content == into.content
    ensures r.Ok? ==> r.value.id == (if "id" in w && w["id"].WString? then w["id"].s else into.id)
    ensures r.Err? ==> r.error.key in DecodedKeys && r.error.key in w && !FitsKind(r.error.key, w[r.error.key])
    ensures (forall k | k in DecodedKeys && k in w :: FitsKind(k, w[k])) ==> r.Ok?
  {
    var postType :- StringField(w, "type", into.postType);
    var category :- StringField(w, "category", into.category);
    var title :- StringField(w, "title", into.title);
    var id :- StringField(w, "id", into.id);
    var author :- AuthorField(w, "author", into.author);
    var score :- NumberField(w, "score", into.score);
    var views :- NumberField(w, "views", into.views);
    var createdTime :- StringField(w, "created", into.createdTime);
    var upvotePercentage :- NumberField(w, "upvotePercentage", into.upvotePercentage);
    var votes :- VotesField(w, "votes", into.votes);
    var comments :- CommentsField(w, "comments", into.comments);
    var text :- StringField(w, "text", "");
    var url :- StringField(w, "url", "");
    var content := if postType == TEXT then text else if postType == LINK then url else into.content;
    Ok(Post(postType, category, title, content, id, author, score, views, createdTime,
            upvotePercentage, votes, comments))
  }
}
