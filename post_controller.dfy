/** The forum: create, list and fetch posts, comment on them and toggle likes.
    `caller` is the authenticated user's id and `now` the time of the request;
    an absent body field is `None`. Population of author references is not
    modelled: ids are returned. */
module PostController {
  import opened Common
  import opened Text
  import opened Sorting
  import UserModel
  import opened PostModel

  /** `category || 'general'`, then the enum validator on save. */
  function CategoryOrDefault(category: Option<string>): (r: Option<Category>)
    ensures category.None? || category == Some("") ==> r == Some(General)
    ensures category.Some? && category.value != "" ==> r == ParseCategory(category.value)
  {
    if category.None? || category.value == "" then Some(General) else ParseCategory(category.value)
  }

  /** `createPost`: the title is trimmed, title and content are required, the
      tags are trimmed, the category defaults to general; a failed validation
      is a 500 and stores nothing. */
  function CreateStep(posts: seq<Post>, nextId: Id, caller: Id, title: Option<string>, content: Option<string>,
                      tags: Option<seq<string>>, category: Option<string>, now: int): Step<Post, Post>
  {
    var t := Trim(title.GetOr(""));
    var c := content.GetOr("");
    var cat := CategoryOrDefault(category);
    if t == "" || c == "" || cat.None? then Step(posts, nextId, ServerError())
    else
      var p := Post(nextId, caller, t, c, cat.value, [], [], UserModel.TrimAll(tags.GetOr([])), now);
      Step(posts + [p], nextId + 1, Ok(p))
  }

  /** POST /posts. */
  method CreatePost(db: Posts, caller: Id, title: Option<string>, content: Option<string>,
                    tags: Option<seq<string>>, category: Option<string>, now: int) returns (r: Reply<Post>)
    requires db.Valid()
    modifies db
    ensures db.Valid()
    ensures Step(db.all, db.nextId, r) == CreateStep(old(db.all), old(db.nextId), caller, title, content, tags, category, now)
  {
    var t := Trim(title.GetOr(""));
    var c := content.GetOr("");
    var cat := CategoryOrDefault(category);
    if t == "" || c == "" || cat.None? {
      return ServerError();
    }
    var p := Post(db.nextId, caller, t, c, cat.value, [], [], UserModel.TrimAll(tags.GetOr([])), now);
    db.Insert(p);
    r := Ok(p);
  }

  /** A post is stored exactly when its title is not blank, it has content and
      its category (if any) is one of the four; it starts with no likes and no
      comments, by the caller, at the time of the request, with the trimmed
      tags in the order sent and the category sent or `general`. */
  lemma CreateSucceedsIff(posts: seq<Post>, nextId: Id, caller: Id, title: Option<string>,
                          content: Option<string>, tags: Option<seq<string>>, category: Option<string>, now: int)
    ensures var o := CreateStep(posts, nextId, caller, title, content, tags, category, now);
      && (o.reply.Ok? <==>
            && title.Some? && !IsBlank(title.value) && content.Some? && content.value != ""
            && (category.None? || category.value in ["", "general", "career", "technical", "resources"]))
      && (o.reply.Ok? ==>
            var p := o.reply.value;
            && o.store == posts + [p] && o.nextId == nextId + 1 && p.id == nextId && p.author == caller
            && p.title == Trim(title.value) && p.content == content.value
            && p.likes == [] && p.comments == [] && p.createdAt == now
            && |p.tags| == |tags.GetOr([])| && p.tags == UserModel.TrimAll(tags.GetOr([]))
            && p.category == CategoryOrDefault(category).value
            && (category.None? || category == Some("") ==> p.category == General)
            && (category.Some? && category.value != "" ==> CategoryName(p.category) == category.value))
      && (o.reply.Fail? ==> o.store == posts && o.nextId == nextId)
  {
  }

  function CreatedKey(p: Post): real {
    p.createdAt as real
  }

  /** `getPosts`: every post, newest first. */
  function GetPosts(posts: seq<Post>): (r: seq<Post>)
    ensures multiset(r) == multiset(posts)
    ensures forall i, j :: 0 <= i < j < |r| ==> r[i].createdAt >= r[j].createdAt
  {
    DescendingOrder(posts, CreatedKey);
    SortBy(posts, Negated(CreatedKey))
  }

  /** `getPostById`. */
  function GetPostById(posts: seq<Post>, id: Id): (r: Reply<Post>)
    ensures r.Ok? ==> r.value in posts && r.value.id == id
    ensures r.Fail? <==> forall j :: 0 <= j < |posts| ==> posts[j].id != id
    ensures r.Fail? ==> r == Fail(404, "Post not found")
  {
    match IndexOfId(posts, id)
    case None => Fail(404, "Post not found")
    case Some(i) => Ok(posts[i])
  }

  /** `addComment`: the new comment goes first; a missing or empty content
      fails the embedded schema's `required` on save (500). */
  function CommentStep(posts: seq<Post>, nextId: Id, caller: Id, id: Id, content: Option<string>,
                       now: int): Step<Post, seq<Comment>>
  {
    match IndexOfId(posts, id)
    case None => Step(posts, nextId, Fail(404, "Post not found"))
    case Some(i) =>
      if content.None? || content.value == "" then Step(posts, nextId, ServerError())
      else
        var cs := [Comment(caller, content.value, now)] + posts[i].comments;
        Step(posts[i := posts[i].(comments := cs)], nextId, Ok(cs))
  }

  /** POST /posts/:id/comment. */
  method AddComment(db: Posts, caller: Id, id: Id, content: Option<string>, now: int)
    returns (r: Reply<seq<Comment>>)
    requires db.Valid()
    modifies db
    ensures db.Valid()
    ensures Step(db.all, db.nextId, r) == CommentStep(old(db.all), old(db.nextId), caller, id, content, now)
  {
    var found := IndexOfId(db.all, id);
    if found.None? {
      return Fail(404, "Post not found");
    }
    if content.None? || content.value == "" {
      return ServerError();
    }
    var post := db.all[found.value];
    var cs := [Comment(caller, content.value, now)] + post.comments;
    post := post.(comments := cs);
    db.Replace(found.value, post);
    r := Ok(cs);
  }

  /** Replacing a post by one with the same id keeps ids below `nextId` and distinct. */
  lemma SameIds(posts: seq<Post>, i: nat, p: Post)
    requires i < |posts| && p.id == posts[i].id
    ensures forall j :: 0 <= j < |posts| ==> posts[i := p][j].id == posts[j].id
  {
  }

  /** A comment is added to that one post only, in front, and the earlier
      comments are kept in order. */
  lemma CommentPrepends(posts: seq<Post>, nextId: Id, caller: Id, id: Id, content: Option<string>, now: int)
    requires IndexOfId(posts, id).Some? && content.Some? && content.value != ""
    ensures var i := IndexOfId(posts, id).value;
      var o := CommentStep(posts, nextId, caller, id, content, now);
      && o.reply.Ok? && |o.store| == |posts|
      && o.store[i] == posts[i].(comments := o.reply.value)
      && o.reply.value[0] == Comment(caller, content.value, now)
      && o.reply.value[1..] == posts[i].comments
      && forall j :: 0 <= j < |posts| && j != i ==> o.store[j] == posts[j]
  {
  }

  /** The like toggle: remove every occurrence of the user, or put the user first. */
  function ToggleLike(likes: seq<Id>, user: Id): (r: seq<Id>)
    ensures user in r <==> user !in likes
    ensures forall v :: v != user ==> multiset(r)[v] == multiset(likes)[v]
    ensures user !in likes ==> r == [user] + likes
    ensures user in likes ==> r == Filter(likes, (v: Id) => v != user)
  {
    if user in likes then Filter(likes, (v: Id) => v != user) else [user] + likes
  }

  /** Liking then unliking restores the list exactly. */
  lemma ToggleTwiceRestores(likes: seq<Id>, user: Id)
    requires user !in likes
    ensures ToggleLike(ToggleLike(likes, user), user) == likes
  {
    var p := (v: Id) => v != user;
    assert ([user] + likes)[1..] == likes;
    FilterHead([user] + likes, p);
    FilterAll(likes, p);
  }

  /** Nobody likes a post twice: toggling keeps the likes free of duplicates. */
  lemma ToggleKeepsDistinct(likes: seq<Id>, user: Id)
    requires forall v :: multiset(likes)[v] <= 1
    ensures forall v :: multiset(ToggleLike(likes, user))[v] <= 1
  {
  }

  /** `likePost`: toggles the caller's like and replies with the new likes. */
  function LikeStep(posts: seq<Post>, nextId: Id, caller: Id, id: Id): Step<Post, seq<Id>>
  {
    match IndexOfId(posts, id)
    case None => Step(posts, nextId, Fail(404, "Post not found"))
    case Some(i) =>
      var likes := ToggleLike(posts[i].likes, caller);
      Step(posts[i := posts[i].(likes := likes)], nextId, Ok(likes))
  }

  /** PUT /posts/:id/like. */
  method LikePost(db: Posts, caller: Id, id: Id) returns (r: Reply<seq<Id>>)
    requires db.Valid()
    modifies db
    ensures db.Valid()
    ensures Step(db.all, db.nextId, r) == LikeStep(old(db.all), old(db.nextId), caller, id)
  {
    var found := IndexOfId(db.all, id);
    if found.None? {
      return Fail(404, "Post not found");
    }
    var post := db.all[found.value];
    var likes: seq<Id>;
    if caller in post.likes {
      likes := Filter(post.likes, (v: Id) => v != caller);
    } else {
      likes := [caller] + post.likes;
    }
    post := post.(likes := likes);
    db.Replace(found.value, post);
    r := Ok(likes);
  }

  /** Liking the same post twice in a row leaves it as it was, when the caller had not liked it. */
  lemma LikeTwiceRestores(posts: seq<Post>, nextId: Id, caller: Id, id: Id)
    requires IndexOfId(posts, id).Some? && caller !in posts[IndexOfId(posts, id).value].likes
    ensures var o := LikeStep(posts, nextId, caller, id);
      LikeStep(o.store, o.nextId, caller, id).store == posts
  {
    var i := IndexOfId(posts, id).value;
    var o := LikeStep(posts, nextId, caller, id);
    SameIds(posts, i, o.store[i]);
    assert IndexOfId(o.store, id) == Some(i);
    ToggleTwiceRestores(posts[i].likes, caller);
    assert o.store[i].(likes := posts[i].likes) == posts[i];
  }
}
