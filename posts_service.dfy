/**
 * `PostsService` of todo-service/src/posts/posts.service.ts: a post table
 * updated in place, where only the owner of a post may change or delete it.
 * The repository assigns ids in increasing order and stamps `created_at`
 * and `updated_at` with the clock reading `now`, which is passed in.
 */
module Posts {
  import opened Wrappers
  import opened CreatePostDto
  import opened UpdatePostDto

  datatype Post = Post(id: int, title: string, content: string, userId: int, createdAt: int, updatedAt: int)

  datatype PostError = NotFound(id: int) | Forbidden(message: string)

  const ForbiddenUpdate := Forbidden("You can only update your own posts")
  const ForbiddenDelete := Forbidden("You can only delete your own posts")

  /** `Object.assign(post, dto)` followed by `save`, which refreshes `updated_at`. */
  function Assign(post: Post, patch: UpdatePost, now: int): (p: Post)
    ensures p.id == post.id && p.userId == post.userId && p.createdAt == post.createdAt && p.updatedAt == now
    ensures patch.title.Some? ==> p.title == patch.title.value
    ensures patch.title.None? ==> p.title == post.title
    ensures patch.content.Some? ==> p.content == patch.content.value
    ensures patch.content.None? ==> p.content == post.content
  {
    post.(
      title := if patch.title.Some? then patch.title.value else post.title,
      content := if patch.content.Some? then patch.content.value else post.content,
      updatedAt := now)
  }

  lemma Pick<T>(s: set<T>) returns (x: T)
    requires s != {}
    ensures x in s
  {
    x :| x in s;
  }

  /** Every non-empty set of stored ids holds one whose post is no older than any other's. */
  lemma {:induction false} NewestExists(posts: map<int, Post>, ids: set<int>)
    requires ids != {} && ids <= posts.Keys
    ensures exists k :: k in ids && forall j :: j in ids ==> posts[j].createdAt <= posts[k].createdAt
    decreases ids
  {
    var x := Pick(ids);
    if ids == {x} {
      assert forall j :: j in ids ==> j == x;
    } else {
      NewestExists(posts, ids - {x});
      var k :| k in ids - {x} && forall j :: j in ids - {x} ==> posts[j].createdAt <= posts[k].createdAt;
      var newest := if posts[x].createdAt > posts[k].createdAt then x else k;
      assert forall j :: j in ids ==> posts[j].createdAt <= posts[newest].createdAt;
    }
  }

  /**
   * `all` lists, newest first and each once, the posts whose ids are not in
   * `rest`, and none of them is older than a post still in `rest`.
   */
  ghost predicate Listed(posts: map<int, Post>, all: seq<Post>, rest: set<int>)
  {
    && rest <= posts.Keys
    && (forall i :: 0 <= i < |all| ==> all[i].id in posts && posts[all[i].id] == all[i] && all[i].id !in rest)
    && (forall id :: id in posts ==> id in rest || exists i :: 0 <= i < |all| && all[i].id == id)
    && (forall i, j :: 0 <= i < j < |all| ==> all[i].id != all[j].id)
    && (forall i, j :: 0 <= i < j < |all| ==> all[i].createdAt >= all[j].createdAt)
    && (forall i, k :: 0 <= i < |all| && k in rest ==> all[i].createdAt >= posts[k].createdAt)
  }

  /** Appending the newest remaining post keeps the listing in order. */
  lemma ListNewest(posts: map<int, Post>, all: seq<Post>, rest: set<int>, k: int)
    requires forall id :: id in posts ==> posts[id].id == id
    requires Listed(posts, all, rest)
    requires k in rest && forall j :: j in rest ==> posts[j].createdAt <= posts[k].createdAt
    ensures Listed(posts, all + [posts[k]], rest - {k})
  {
    var all' := all + [posts[k]];
    forall id | id in posts && id !in rest - {k}
      ensures exists i :: 0 <= i < |all'| && all'[i].id == id
    {
      if id == k {
        assert all'[|all|].id == id;
      } else {
        var i :| 0 <= i < |all| && all[i].id == id;
        assert all'[i] == all[i];
      }
    }
  }

  /**
   * Sending the same patch twice leaves the post as sending it once, up to
   * `updated_at`; the empty patch only touches `updated_at`.
   */
  lemma PatchIdempotent(post: Post, patch: UpdatePost, earlier: int, now: int)
    ensures Assign(Assign(post, patch, earlier), patch, now) == Assign(post, patch, now)
    ensures Assign(post, UpdatePost(None, None), now) == post.(updatedAt := now)
  {
  }

  /** A validated patch never shortens a title below three characters. */
  lemma PatchKeepsTitleLength(post: Post, body: UpdatePostBody, now: int)
    requires |post.title| >= 3
    requires UpdatePostDto.Validate(body).Some?
    ensures |Assign(post, UpdatePostDto.Validate(body).value, now).title| >= 3
  {
  }

  /**
   * Unlike creation, an update may empty a post's content: a patch with
   * `content: ""` passes validation and is applied.
   */
  lemma PatchMayEmptyContent(post: Post, now: int)
    ensures UpdatePostDto.Validate(UpdatePostBody(ClassValidator.Missing, ClassValidator.Str(""))).Some?
    ensures Assign(post, UpdatePostDto.Validate(UpdatePostBody(ClassValidator.Missing, ClassValidator.Str(""))).value, now).content == ""
  {
  }

  class PostsService {
    /** The post repository, by id. */
    var posts: map<int, Post>
    /** The id the repository will assign next. */
    var nextId: int

    ghost predicate Valid()
      reads this
    {
      && nextId >= 1
      && forall id :: id in posts ==> posts[id].id == id && 1 <= id < nextId
    }

    constructor()
      ensures Valid() && posts == map[] && nextId == 1
    {
      posts, nextId := map[], 1;
    }

    /** `create(dto, userId)`: store a new post of the caller's. */
    method Create(dto: CreatePost, userId: int, now: int) returns (saved: Post)
      requires Valid()
      modifies this
      ensures Valid()
      ensures saved.title == dto.title && saved.content == dto.content && saved.userId == userId
      ensures saved.createdAt == now && saved.updatedAt == now
      ensures saved.id !in old(posts) && posts == old(posts)[saved.id := saved]
    {
      var post := Post(nextId, dto.title, dto.content, userId, now, now);
      posts := posts[post.id := post];
      nextId := nextId + 1;
      saved := post;
    }

    /** `findAll()`: every stored post once, newest first (`order: { created_at: 'DESC' }`). */
    method FindAll() returns (all: seq<Post>)
      requires Valid()
      ensures forall i :: 0 <= i < |all| ==> all[i].id in posts && posts[all[i].id] == all[i]
      ensures forall id :: id in posts ==> exists i :: 0 <= i < |all| && all[i].id == id
      ensures forall i, j :: 0 <= i < j < |all| ==> all[i].id != all[j].id
      ensures forall i, j :: 0 <= i < j < |all| ==> all[i].createdAt >= all[j].createdAt
    {
      all := [];
      var rest := posts.Keys;
      while rest != {}
        invariant Listed(posts, all, rest)
        decreases rest
      {
        NewestExists(posts, rest);
        var k :| k in rest && forall j :: j in rest ==> posts[j].createdAt <= posts[k].createdAt;
        ListNewest(posts, all, rest, k);
        all := all + [posts[k]];
        rest := rest - {k};
      }
    }

    /** `findOne(id)`: the stored post, or `NotFound`. */
    method FindOne(id: int) returns (r: Result<Post, PostError>)
      requires Valid()
      ensures r.Ok? <==> id in posts
      ensures r.Ok? ==> r.value == posts[id] && r.value.id == id
      ensures r.Err? ==> r.error == NotFound(id)
    {
      if id !in posts {
        return Err(NotFound(id));
      }
      r := Ok(posts[id]);
    }

    /**
     * `update(id, dto, userId)`: a missing post is `NotFound` before any
     * ownership check; a post of someone else's is `Forbidden`; either way
     * the table is unchanged. The owner's patch overwrites only the fields
     * it carries.
     */
    method Update(id: int, patch: UpdatePost, userId: int, now: int) returns (r: Result<Post, PostError>)
      requires Valid()
      modifies this
      ensures Valid() && nextId == old(nextId)
      ensures id !in old(posts) ==> r == Err(NotFound(id)) && posts == old(posts)
      ensures id in old(posts) && old(posts)[id].userId != userId ==> r == Err(ForbiddenUpdate) && posts == old(posts)
      ensures id in old(posts) && old(posts)[id].userId == userId ==>
        var before := old(posts)[id];
        && r.Ok? && posts == old(posts)[id := r.value]
        && r.value.id == id && r.value.userId == before.userId && r.value.createdAt == before.createdAt
        && r.value.title == (if patch.title.Some? then patch.title.value else before.title)
        && r.value.content == (if patch.content.Some? then patch.content.value else before.content)
        && r.value.updatedAt == now
    {
      var found := FindOne(id);
      if found.Err? {
        return Err(found.error);
      }
      var post := found.value;
      if post.userId != userId {
        return Err(ForbiddenUpdate);
      }
      post := Assign(post, patch, now);
      posts := posts[id := post];
      r := Ok(post);
    }

    /**
     * `remove(id, userId)`: the same checks as update; the owner's call
     * deletes exactly that post.
     */
    method Remove(id: int, userId: int) returns (r: Result<(), PostError>)
      requires Valid()
      modifies this
      ensures Valid() && nextId == old(nextId)
      ensures id !in old(posts) ==> r == Err(NotFound(id)) && posts == old(posts)
      ensures id in old(posts) && old(posts)[id].userId != userId ==> r == Err(ForbiddenDelete) && posts == old(posts)
      ensures id in old(posts) && old(posts)[id].userId == userId ==> r == Ok(()) && posts == old(posts) - {id}
    {
      var found := FindOne(id);
      if found.Err? {
        return Err(found.error);
      }
      var post := found.value;
      if post.userId != userId {
        return Err(ForbiddenDelete);
      }
      posts := posts - {post.id};
      r := Ok(());
    }
  }
}
