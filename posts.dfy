/** Posts (controllers/postController.js): who may post where, who may change or
    delete a post, likes, which posts a user's feed shows, and how a listing is cut
    into pages.

    The posts collection is a map from post ids to records, held by the class
    `PostStore`. Deleting a post also deletes its comments, held by a
    `Comments.CommentStore`. */
module Posts {
  import opened Base
  import opened Text
  import opened Lists
  import opened Validators
  import Groups
  import Comments

  datatype Post = Post(content: string, author: UserId, groupId: Option<GroupId>, likes: seq<UserId>,
                       createdAt: int)

  type PostMap = map<PostId, Post>
  type GroupMap = map<GroupId, Groups.Group>

  const InvalidGroupIdFormat := BadRequest("Invalid groupId format")
  const NotAGroupMemberToPost := Forbidden("You must be a member to post in this group")
  const InvalidPostId := BadRequest("Invalid post ID format")
  const NotYourPost := Forbidden("Not your post")
  const InvalidGroupId := BadRequest("Invalid group ID format")
  const NotAGroupMemberToView := Forbidden("You must be a member to view group posts")

  // ---------------------------------------------------------------------------
  // Length in UTF-16 units, under trimming
  // ---------------------------------------------------------------------------

  /** Trimming never lengthens a string, counted the JavaScript way. */
  lemma TrimmedIsNoLonger(s: string)
    ensures JsLength(Trim(s)) <= JsLength(s)
  {
    TrimIsInfix(s);
    var i, j :| 0 <= i <= j <= |s| && Trim(s) == s[i..j];
    JsLengthSlice(s, i, j);
  }

  /** A slice is never longer than the whole, counted the JavaScript way. */
  lemma JsLengthSlice(s: string, i: nat, j: nat)
    requires i <= j <= |s|
    ensures JsLength(s[i..j]) <= JsLength(s)
  {
    JsLengthTake(s, j);
    JsLengthDrop(s[..j], i);
    assert s[..j][i..] == s[i..j];
  }

  lemma {:induction false} JsLengthTake(s: string, j: nat)
    requires j <= |s|
    ensures JsLength(s[..j]) <= JsLength(s)
  {
    if j > 0 {
      assert s[..j][1..] == s[1..][..j - 1];
      JsLengthTake(s[1..], j - 1);
    }
  }

  lemma {:induction false} JsLengthDrop(s: string, i: nat)
    requires i <= |s|
    ensures JsLength(s[i..]) <= JsLength(s)
  {
    if i > 0 {
      assert s[i..] == s[1..][i - 1..];
      JsLengthDrop(s[1..], i - 1);
    }
  }

  // ---------------------------------------------------------------------------
  // createPost, updatePost, deletePost, toggleLikePost
  // ---------------------------------------------------------------------------

  /** `createPost`: the content must have text; a group id that is given must be well
      formed, name an existing group, and that group must list the author as a member.
      The post is stored with its content trimmed, no likes, and no group when none
      was given. (`groupId` is None when the field is absent or empty.) */
  function NewPost(groups: GroupMap, author: UserId, content: Option<string>, groupId: Option<Ref>, now: int)
    : (r: Result<Post>)
    ensures !HasText(content) ==> r == Err(ContentRequired)
    ensures HasText(content) && groupId == Some(Malformed) ==> r == Err(InvalidGroupIdFormat)
    ensures HasText(content) && groupId.Some? && groupId.value.Ref? && groupId.value.id !in groups ==>
              r == Err(NotFound)
    ensures r.Ok? <==> && HasText(content)
                       && (groupId.Some? ==> && groupId.value.Ref? && groupId.value.id in groups
                                             && author in groups[groupId.value.id].members)
    ensures r.Err? && HasText(content) && groupId.Some? && groupId.value.Ref? && groupId.value.id in groups ==>
              r.error == NotAGroupMemberToPost
    ensures r.Ok? ==> && r.value.content == Trim(content.value) && r.value.content != []
                      && r.value.author == author && r.value.likes == [] && r.value.createdAt == now
                      && r.value.groupId == (if groupId.Some? then Some(groupId.value.id) else None)
  {
    if !HasText(content) then Err(ContentRequired)
    else if groupId.Some? && groupId.value.Malformed? then Err(InvalidGroupIdFormat)
    else if groupId.Some? && groupId.value.id !in groups then Err(NotFound)
    else if groupId.Some? && author !in groups[groupId.value.id].members then Err(NotAGroupMemberToPost)
    else Ok(Post(Trim(content.value), author, if groupId.Some? then Some(groupId.value.id) else None, [], now))
  }

  /** The checks `updatePost`, `deletePost` and `toggleLikePost` share up to the
      lookup: a malformed id is refused, an unknown one is NotFound. */
  function FindPost(posts: PostMap, id: Ref): (r: Result<PostId>)
    ensures id.Malformed? ==> r == Err(InvalidPostId)
    ensures id.Ref? && id.id !in posts ==> r == Err(NotFound)
    ensures r.Ok? <==> id.Ref? && id.id in posts
    ensures r.Ok? ==> r.value == id.id
  {
    if id.Malformed? then Err(InvalidPostId)
    else if id.id !in posts then Err(NotFound)
    else Ok(id.id)
  }

  /** `updatePost`: only the author may edit; content with text replaces the old one,
      trimmed, and anything else keeps it. Nothing else about any post changes. */
  function EditPost(posts: PostMap, actor: UserId, id: Ref, content: Option<string>): (r: Result<PostMap>)
    ensures FindPost(posts, id).Err? ==> r == Err(FindPost(posts, id).error)
    ensures r.Ok? <==> FindPost(posts, id).Ok? && posts[id.id].author == actor
    ensures FindPost(posts, id).Ok? && posts[id.id].author != actor ==> r == Err(NotYourPost)
    ensures r.Ok? ==> && r.value.Keys == posts.Keys
                      && r.value[id.id].content == (if HasText(content) then Trim(content.value) else posts[id.id].content)
                      && r.value[id.id].author == actor
                      && r.value[id.id].likes == posts[id.id].likes
                      && r.value[id.id].groupId == posts[id.id].groupId
                      && r.value[id.id].createdAt == posts[id.id].createdAt
                      && forall other :: other in posts && other != id.id ==> r.value[other] == posts[other]
  {
    match FindPost(posts, id)
    case Err(e) => Err(e)
    case Ok(pid) =>
      if posts[pid].author != actor then Err(NotYourPost)
      else if HasText(content) then Ok(posts[pid := posts[pid].(content := Trim(content.value))])
      else Ok(posts)
  }

  /** `deletePost`: only the author may delete; the post goes, and only it. */
  function RemovePost(posts: PostMap, actor: UserId, id: Ref): (r: Result<PostMap>)
    ensures FindPost(posts, id).Err? ==> r == Err(FindPost(posts, id).error)
    ensures r.Ok? <==> FindPost(posts, id).Ok? && posts[id.id].author == actor
    ensures FindPost(posts, id).Ok? && posts[id.id].author != actor ==> r == Err(NotYourPost)
    ensures r.Ok? ==> && r.value.Keys == posts.Keys - {id.id}
                      && forall other :: other in r.value ==> r.value[other] == posts[other]
  {
    match FindPost(posts, id)
    case Err(e) => Err(e)
    case Ok(pid) =>
      if posts[pid].author != actor then Err(NotYourPost)
      else Ok(posts - {pid})
  }

  /** What `toggleLikePost` answers: how many likes the post has now and whether the
      user now likes it. */
  datatype LikeReply = LikeReply(likes: nat, hasLiked: bool)

  /** `toggleLikePost` on one post: a user who liked the post stops liking it (every
      entry of theirs goes), anyone else is appended. */
  function ToggleLike(p: Post, u: UserId): (r: (Post, LikeReply))
    ensures u in r.0.likes <==> u !in p.likes
    ensures forall v :: v != u ==> (v in r.0.likes <==> v in p.likes)
    ensures r.1 == LikeReply(|r.0.likes|, u in r.0.likes)
    ensures u !in p.likes ==> |r.0.likes| == |p.likes| + 1
    ensures r.0.content == p.content && r.0.author == p.author && r.0.groupId == p.groupId
    ensures r.0.createdAt == p.createdAt
  {
    var hasLiked := u in p.likes;
    var likes := if hasLiked then Pull(p.likes, u) else p.likes + [u];
    (p.(likes := likes), LikeReply(|likes|, !hasLiked))
  }

  /** Liking twice is a no-op on who likes the post, and, starting from a post the
      user did not like, on the likes list itself. */
  lemma ToggleTwice(p: Post, u: UserId)
    ensures var q := ToggleLike(ToggleLike(p, u).0, u).0;
            && (forall v :: v in q.likes <==> v in p.likes)
            && (u !in p.likes ==> q == p)
  {
    if u !in p.likes {
      PullPushed(p.likes, u);
    }
  }

  /** With the route's validator in front, a stored post never exceeds 300 characters:
      creating and editing trim content that the validator already bounded. */
  lemma ValidatedContentFits(groups: GroupMap, posts: PostMap, author: UserId, content: Option<string>,
                             groupId: Option<Ref>, now: int, id: Ref)
    requires ValidateContent(content, PostContent) == Pass
    ensures NewPost(groups, author, content, groupId, now).Ok? ==>
              JsLength(NewPost(groups, author, content, groupId, now).value.content) <= 300
    ensures EditPost(posts, author, id, content).Ok? ==>
              JsLength(EditPost(posts, author, id, content).value[id.id].content) <= 300
  {
    TrimmedIsNoLonger(content.value);
  }

  // ---------------------------------------------------------------------------
  // Listings: the feed, a group's posts, and pages
  // ---------------------------------------------------------------------------

  /** `+q || d` on a numeric query field: absent, not a number, or zero gives the
      default. (`q` is None when the field is absent or not a number.) */
  function NumberOr(q: Option<int>, d: int): int {
    if q.Some? && q.value != 0 then q.value else d
  }

  /** The page arithmetic of `getFeedPosts` and `getGroupPosts`. */
  datatype Paging = Paging(page: int, limit: int, skip: int)

  function PagingOf(page: Option<int>, limit: Option<int>): (p: Paging)
    ensures p.page >= 1 && p.limit <= 50
    ensures page.Some? && page.value >= 1 ==> p.page == page.value
    ensures page.None? || page.value <= 0 ==> p.page == 1
    ensures limit.None? || limit.value == 0 ==> p.limit == 20
    ensures limit.Some? && 1 <= limit.value <= 50 ==> p.limit == limit.value
    ensures limit.Some? && limit.value > 50 ==> p.limit == 50
    ensures p.skip == (p.page - 1) * p.limit
  {
    var page := if NumberOr(page, 1) >= 1 then NumberOr(page, 1) else 1;
    var limit := if NumberOr(limit, 20) <= 50 then NumberOr(limit, 20) else 50;
    Paging(page, limit, (page - 1) * limit)
  }

  /** The `hasMore` flag of a listing. */
  function HasMore(total: nat, p: Paging): bool {
    total > p.page * p.limit
  }

  /** `.skip(skip).limit(limit)` on an ordered result, for a limit of at least 1. */
  function Window(s: seq<Id>, p: Paging): (w: seq<Id>)
    requires p.page >= 1 && p.limit >= 1 && p.skip == (p.page - 1) * p.limit
    ensures |w| == if |s| <= p.skip then 0 else if |s| - p.skip < p.limit then |s| - p.skip else p.limit
    ensures forall k :: 0 <= k < |w| ==> p.skip + k < |s| && w[k] == s[p.skip + k]
  {
    assert p.skip >= 0 by {
      assert p.page - 1 >= 0;
    }
    if |s| <= p.skip then []
    else if |s| - p.skip < p.limit then s[p.skip..]
    else s[p.skip..p.skip + p.limit]
  }

  /** `hasMore` holds exactly when the page is full and at least one item follows it. */
  lemma HasMoreMeansMoreAfter(s: seq<Id>, p: Paging)
    requires p.page >= 1 && p.limit >= 1 && p.skip == (p.page - 1) * p.limit
    ensures HasMore(|s|, p) <==> |Window(s, p)| == p.limit && p.skip + p.limit < |s|
  {
    assert p.skip + p.limit == p.page * p.limit;
  }

  /** The feed filter of `getFeedPosts`: the user's own posts, their friends' posts,
      and posts in a group that lists the user as a member. */
  predicate InFeed(post: Post, me: UserId, friends: seq<UserId>, groups: GroupMap) {
    || post.author == me
    || post.author in friends
    || (post.groupId.Some? && post.groupId.value in groups && me in groups[post.groupId.value].members)
  }

  function FeedIds(posts: PostMap, me: UserId, friends: seq<UserId>, groups: GroupMap): (ids: set<PostId>)
    ensures forall id :: id in ids <==> id in posts && InFeed(posts[id], me, friends, groups)
  {
    set id | id in posts && InFeed(posts[id], me, friends, groups)
  }

  /** `ids` lists every id of `wanted` once, newest post first. */
  ghost predicate NewestFirst(posts: PostMap, wanted: set<PostId>, ids: seq<PostId>) {
    && (forall id :: id in ids <==> id in wanted)
    && Distinct(ids)
    && (forall k :: 0 <= k < |ids| ==> ids[k] in posts)
    && (forall i, j :: 0 <= i < j < |ids| ==> posts[ids[i]].createdAt >= posts[ids[j]].createdAt)
  }

  /** One page of a listing, as the handlers answer it. */
  datatype Listing = Listing(data: seq<PostId>, paging: Paging, total: nat, hasMore: bool)

  /** The posts with ids in `wanted`, newest first, cut to the page `paging`. */
  method ListPage(posts: PostMap, wanted: set<PostId>, paging: Paging) returns (r: Listing)
    requires wanted <= posts.Keys
    requires paging.page >= 1 && paging.limit >= 1 && paging.skip == (paging.page - 1) * paging.limit
    ensures r.paging == paging && r.total == |wanted| && r.hasMore == HasMore(|wanted|, paging)
    ensures forall id :: id in r.data ==> id in wanted
    ensures exists all :: NewestFirst(posts, wanted, all) && r.data == Window(all, paging)
  {
    var key := (id: PostId) => if id in posts then -posts[id].createdAt else 0;
    var all := OrderBy(wanted, key);
    assert forall k :: 0 <= k < |all| ==> all[k] in posts;
    assert forall i, j :: 0 <= i < j < |all| ==> key(all[i]) <= key(all[j]);
    assert NewestFirst(posts, wanted, all);
    DistinctCardinality(all, wanted);
    var data := Window(all, paging);
    r := Listing(data, paging, |all|, HasMore(|all|, paging));
  }

  /** A repetition-free list of exactly the elements of a set is as long as the set. */
  lemma {:induction false} DistinctCardinality(s: seq<Id>, ids: set<Id>)
    requires Distinct(s) && forall y :: y in s <==> y in ids
    ensures |s| == |ids|
  {
    if s != [] {
      var tail := s[1..];
      assert Distinct(tail) by {
        forall i, j | 0 <= i < j < |tail| ensures tail[i] != tail[j] {
          assert tail[i] == s[i + 1] && tail[j] == s[j + 1];
        }
      }
      assert s[0] !in tail by {
        forall k | 0 <= k < |tail| ensures tail[k] != s[0] {
          assert tail[k] == s[k + 1];
        }
      }
      assert forall y :: y in tail <==> y in ids - {s[0]} by {
        assert s == [s[0]] + tail;
      }
      DistinctCardinality(tail, ids - {s[0]});
    } else {
      assert ids == {};
    }
  }

  /** `getFeedPosts`: the page of the posts the feed filter admits, newest first. A
      negative `limit` query value is not covered (see the README). */
  method FeedPage(posts: PostMap, groups: GroupMap, me: UserId, friends: seq<UserId>,
                  page: Option<int>, limit: Option<int>) returns (r: Listing)
    requires limit.None? || limit.value >= 0
    ensures r.paging == PagingOf(page, limit)
    ensures r.total == |FeedIds(posts, me, friends, groups)|
    ensures r.hasMore == (r.total > r.paging.page * r.paging.limit)
    ensures forall id :: id in r.data ==> id in posts && InFeed(posts[id], me, friends, groups)
    ensures exists all :: NewestFirst(posts, FeedIds(posts, me, friends, groups), all)
                          && r.data == Window(all, r.paging)
  {
    var paging := PagingOf(page, limit);
    r := ListPage(posts, FeedIds(posts, me, friends, groups), paging);
  }

  /** The checks of `getGroupPosts`: a malformed id is refused, an unknown group is
      NotFound, and only members may read the group's posts. */
  function GroupPostsAccess(groups: GroupMap, me: UserId, groupId: Ref): (o: Outcome)
    ensures groupId.Malformed? ==> o == Fail(InvalidGroupId)
    ensures groupId.Ref? && groupId.id !in groups ==> o == Fail(NotFound)
    ensures o == Pass <==> groupId.Ref? && groupId.id in groups && me in groups[groupId.id].members
    ensures o.Fail? && groupId.Ref? && groupId.id in groups ==> o.error == NotAGroupMemberToView
  {
    if groupId.Malformed? then Fail(InvalidGroupId)
    else if groupId.id !in groups then Fail(NotFound)
    else if me !in groups[groupId.id].members then Fail(NotAGroupMemberToView)
    else Pass
  }

  function InGroup(posts: PostMap, g: GroupId): (ids: set<PostId>)
    ensures forall id :: id in ids <==> id in posts && posts[id].groupId == Some(g)
  {
    set id | id in posts && posts[id].groupId == Some(g)
  }

  /** `getGroupPosts`: for a member, the page of the group's posts, newest first. */
  method GroupPostsPage(posts: PostMap, groups: GroupMap, me: UserId, groupId: Ref,
                        page: Option<int>, limit: Option<int>) returns (r: Result<Listing>)
    requires limit.None? || limit.value >= 0
    ensures GroupPostsAccess(groups, me, groupId).Fail? ==> r == Err(GroupPostsAccess(groups, me, groupId).error)
    ensures r.Ok? <==> GroupPostsAccess(groups, me, groupId) == Pass
    ensures r.Ok? ==> && r.value.paging == PagingOf(page, limit)
                      && r.value.total == |InGroup(posts, groupId.id)|
                      && r.value.hasMore == (r.value.total > r.value.paging.page * r.value.paging.limit)
                      && (forall id :: id in r.value.data ==> id in posts && posts[id].groupId == Some(groupId.id))
                      && exists all :: NewestFirst(posts, InGroup(posts, groupId.id), all)
                                       && r.value.data == Window(all, r.value.paging)
  {
    if groupId.Malformed? {
      return Err(InvalidGroupId);
    }
    var paging := PagingOf(page, limit);
    if groupId.id !in groups {
      return Err(NotFound);
    }
    if me !in groups[groupId.id].members {
      return Err(NotAGroupMemberToView);
    }
    var listing := ListPage(posts, InGroup(posts, groupId.id), paging);
    r := Ok(listing);
  }

  /** A post in a group shows in the feed of every member of the group, whoever
      wrote it. */
  lemma GroupPostReachesMembers(groups: GroupMap, author: UserId, content: Option<string>, g: GroupId,
                                now: int, member: UserId, friends: seq<UserId>)
    requires NewPost(groups, author, content, Some(Ref(g)), now).Ok?
    requires member in groups[g].members
    ensures InFeed(NewPost(groups, author, content, Some(Ref(g)), now).value, member, friends, groups)
  {
  }

  // ---------------------------------------------------------------------------
  // The posts collection
  // ---------------------------------------------------------------------------

  class PostStore {
    var posts: PostMap
    var nextId: nat

    ghost predicate Valid()
      reads this
    {
      forall id :: id in posts ==> id < nextId
    }

    constructor ()
      ensures Valid() && posts == map[]
    {
      posts := map[];
      nextId := 0;
    }

    /** `createPost` applied to the store: the new post gets a new id. */
    method CreatePost(actor: UserId, content: Option<string>, groupId: Option<Ref>, groups: GroupMap, now: int)
      returns (r: Result<PostId>)
      requires Valid()
      modifies this
      ensures Valid()
      ensures var spec := NewPost(groups, actor, content, groupId, now);
              && (spec.Err? ==> r == Err(spec.error) && posts == old(posts))
              && (spec.Ok? ==> && r == Ok(old(nextId)) && old(nextId) !in old(posts)
                               && posts == old(posts)[old(nextId) := spec.value])
    {
      var made := NewPost(groups, actor, content, groupId, now);
      if made.Err? {
        return Err(made.error);
      }
      var id := nextId;
      posts := posts[id := made.value];
      nextId := nextId + 1;
      r := Ok(id);
    }

    /** `updatePost` applied in place. */
    method UpdatePost(actor: UserId, id: Ref, content: Option<string>) returns (r: Result<Post>)
      requires Valid()
      modifies this
      ensures Valid() && nextId == old(nextId)
      ensures var spec := EditPost(old(posts), actor, id, content);
              && (spec.Err? ==> r == Err(spec.error) && posts == old(posts))
              && (spec.Ok? ==> posts == spec.value && r == Ok(posts[id.id]))
    {
      if id.Malformed? {
        return Err(InvalidPostId);
      }
      if id.id !in posts {
        return Err(NotFound);
      }
      var p := posts[id.id];
      if p.author != actor {
        return Err(NotYourPost);
      }
      if HasText(content) {
        p := p.(content := Trim(content.value));
      }
      posts := posts[id.id := p];
      r := Ok(p);
    }

    /** `deletePost` applied in place: the post's comments go first, then the post. */
    method DeletePost(actor: UserId, id: Ref, comments: Comments.CommentStore) returns (r: Result<()>)
      requires Valid() && comments.Valid()
      modifies this, comments
      ensures Valid() && comments.Valid() && nextId == old(nextId)
      ensures var spec := RemovePost(old(posts), actor, id);
              && (spec.Err? ==> && r == Err(spec.error) && posts == old(posts)
                                && comments.comments == old(comments.comments))
              && (spec.Ok? ==> && r == Ok(()) && posts == spec.value
                               && comments.comments == Comments.WithoutPost(old(comments.comments), id.id))
    {
      if id.Malformed? {
        return Err(InvalidPostId);
      }
      if id.id !in posts {
        return Err(NotFound);
      }
      if posts[id.id].author != actor {
        return Err(NotYourPost);
      }
      comments.DeletePostComments(id.id);
      posts := posts - {id.id};
      r := Ok(());
    }

    /** `toggleLikePost` applied in place. */
    method ToggleLikePost(actor: UserId, id: Ref) returns (r: Result<LikeReply>)
      requires Valid()
      modifies this
      ensures Valid() && nextId == old(nextId)
      ensures FindPost(old(posts), id).Err? ==> r == Err(FindPost(old(posts), id).error) && posts == old(posts)
      ensures FindPost(old(posts), id).Ok? ==>
                && posts == old(posts)[id.id := ToggleLike(old(posts)[id.id], actor).0]
                && r == Ok(ToggleLike(old(posts)[id.id], actor).1)
    {
      if id.Malformed? {
        return Err(InvalidPostId);
      }
      if id.id !in posts {
        return Err(NotFound);
      }
      var p := posts[id.id];
      var hasLiked := actor in p.likes;
      if hasLiked {
        p := p.(likes := Pull(p.likes, actor));
      } else {
        p := p.(likes := p.likes + [actor]);
      }
      posts := posts[id.id := p];
      r := Ok(LikeReply(|p.likes|, !hasLiked));
    }
  }
}
