/** Comments on posts (controllers/commentController.js), and the removal of a post's
    comments that deleting the post triggers (controllers/postController.js).

    The comments collection is a map from comment ids to records, held by the class
    `CommentStore`; each handler looks a comment up, checks that the acting user wrote
    it, and changes or removes that one record. */
module Comments {
  import opened Base
  import opened Lists

  datatype Comment = Comment(postId: PostId, author: UserId, content: string, createdAt: int)

  type CommentMap = map<CommentId, Comment>

  const NotAuthorToUpdate := Forbidden("You are not authorized to update this comment")
  const NotAuthorToDelete := Forbidden("You can delete only your own comments")

  /** The ids of the comments on post `p`. */
  function OnPost(comments: CommentMap, p: PostId): (ids: set<CommentId>)
    ensures forall id :: id in ids <==> id in comments && comments[id].postId == p
  {
    set id | id in comments && comments[id].postId == p
  }

  /** `updateComment`: a missing comment is NotFound, someone else's is Forbidden; the
      author's comment gets the new content, and no other record changes. */
  function EditComment(comments: CommentMap, actor: UserId, id: CommentId, content: string)
    : (r: Result<CommentMap>)
    ensures id !in comments ==> r == Err(NotFound)
    ensures id in comments && comments[id].author != actor ==> r == Err(NotAuthorToUpdate)
    ensures r.Ok? <==> id in comments && comments[id].author == actor
    ensures r.Ok? ==> && r.value.Keys == comments.Keys
                      && r.value[id].content == content
                      && r.value[id].author == comments[id].author
                      && r.value[id].postId == comments[id].postId
                      && r.value[id].createdAt == comments[id].createdAt
                      && forall other :: other in comments && other != id ==> r.value[other] == comments[other]
  {
    if id !in comments then Err(NotFound)
    else if comments[id].author != actor then Err(NotAuthorToUpdate)
    else Ok(comments[id := comments[id].(content := content)])
  }

  /** `deleteComment`: the same checks; the author's comment goes, and only it. */
  function RemoveComment(comments: CommentMap, actor: UserId, id: CommentId): (r: Result<CommentMap>)
    ensures id !in comments ==> r == Err(NotFound)
    ensures id in comments && comments[id].author != actor ==> r == Err(NotAuthorToDelete)
    ensures r.Ok? <==> id in comments && comments[id].author == actor
    ensures r.Ok? ==> && r.value.Keys == comments.Keys - {id}
                      && forall other :: other in r.value ==> r.value[other] == comments[other]
  {
    if id !in comments then Err(NotFound)
    else if comments[id].author != actor then Err(NotAuthorToDelete)
    else Ok(comments - {id})
  }

  /** `Comment.deleteMany({ postId })`: every comment on post `p` goes; every other
      comment stays as it was. */
  function WithoutPost(comments: CommentMap, p: PostId): (r: CommentMap)
    ensures forall id :: id in r <==> id in comments && comments[id].postId != p
    ensures forall id :: id in r ==> r[id] == comments[id]
  {
    map id | id in comments && comments[id].postId != p :: comments[id]
  }

  /** After the cascade the post has no comments, and every other post keeps its own. */
  lemma CascadeClearsOnlyThatPost(comments: CommentMap, p: PostId, q: PostId)
    ensures OnPost(WithoutPost(comments, p), p) == {}
    ensures q != p ==> OnPost(WithoutPost(comments, p), q) == OnPost(comments, q)
  {
    var after := WithoutPost(comments, p);
    assert forall id :: id !in OnPost(after, p);
    if q != p {
      forall id ensures id in OnPost(after, q) <==> id in OnPost(comments, q) {
      }
    }
  }

  class CommentStore {
    var comments: CommentMap
    var nextId: nat

    ghost predicate Valid()
      reads this
    {
      forall id :: id in comments ==> id < nextId
    }

    constructor ()
      ensures Valid() && comments == map[]
    {
      comments := map[];
      nextId := 0;
    }

    /** `createComment` on the post `postId` (the route's validator has already
        required a well-formed id and non-blank content of at most 300 characters):
        NotFound when no such post exists; otherwise a new comment by the acting user,
        with the content as given, under a new id. */
    method CreateComment(actor: UserId, postId: PostId, content: string, posts: set<PostId>, now: int)
      returns (r: Result<CommentId>)
      requires Valid()
      modifies this
      ensures Valid()
      ensures postId !in posts ==> r == Err(NotFound) && comments == old(comments)
      ensures postId in posts ==>
                && r == Ok(old(nextId)) && old(nextId) !in old(comments)
                && comments == old(comments)[old(nextId) := Comment(postId, actor, content, now)]
    {
      if postId !in posts {
        return Err(NotFound);
      }
      var id := nextId;
      comments := comments[id := Comment(postId, actor, content, now)];
      nextId := nextId + 1;
      r := Ok(id);
    }

    /** `getCommentsByPost`: exactly the comments on the post, oldest first. An unknown
        post simply has none. */
    method CommentsByPost(postId: PostId) returns (r: seq<CommentId>)
      ensures forall id :: id in r <==> id in comments && comments[id].postId == postId
      ensures Distinct(r)
      ensures forall i, j :: 0 <= i < j < |r| ==> comments[r[i]].createdAt <= comments[r[j]].createdAt
    {
      var cs := comments;
      var key := (id: CommentId) => if id in cs then cs[id].createdAt else 0;
      r := OrderBy(OnPost(cs, postId), key);
      assert forall k :: 0 <= k < |r| ==> r[k] in cs;
      assert forall i, j :: 0 <= i < j < |r| ==> key(r[i]) <= key(r[j]);
    }

    /** `updateComment` applied in place. */
    method UpdateComment(actor: UserId, id: CommentId, content: string) returns (r: Result<Comment>)
      requires Valid()
      modifies this
      ensures Valid() && nextId == old(nextId)
      ensures var spec := EditComment(old(comments), actor, id, content);
              && (spec.Err? ==> r == Err(spec.error) && comments == old(comments))
              && (spec.Ok? ==> comments == spec.value && r == Ok(comments[id]))
    {
      if id !in comments {
        return Err(NotFound);
      }
      var c := comments[id];
      if c.author != actor {
        return Err(NotAuthorToUpdate);
      }
      c := c.(content := content);
      comments := comments[id := c];
      r := Ok(c);
    }

    /** `deleteComment` applied in place. */
    method DeleteComment(actor: UserId, id: CommentId) returns (r: Result<()>)
      requires Valid()
      modifies this
      ensures Valid() && nextId == old(nextId)
      ensures var spec := RemoveComment(old(comments), actor, id);
              && (spec.Err? ==> r == Err(spec.error) && comments == old(comments))
              && (spec.Ok? ==> comments == spec.value && r == Ok(()))
    {
      if id !in comments {
        return Err(NotFound);
      }
      if comments[id].author != actor {
        return Err(NotAuthorToDelete);
      }
      comments := comments - {id};
      r := Ok(());
    }

    /** `Comment.deleteMany({ postId })` applied in place. */
    method DeletePostComments(postId: PostId)
      requires Valid()
      modifies this
      ensures Valid() && nextId == old(nextId)
      ensures comments == WithoutPost(old(comments), postId)
    {
      comments := WithoutPost(comments, postId);
    }
  }
}
