/** The forum page's pure parts: the category filter, the replacement of one
    post in the list after a like or a comment, and the category options of
    the new-post form. */
module ClientForum {
  import opened Common
  import opened Text
  import opened PostModel
  import PostController

  /** `filter === 'all' ? posts : posts.filter(p => p.category === filter)`. */
  function FilterPosts(posts: seq<Post>, filter: string): (r: seq<Post>)
    ensures filter == "all" ==> r == posts
    ensures filter != "all" ==> forall p :: p in r <==> p in posts && CategoryName(p.category) == filter
  {
    if filter == "all" then posts
    else
      var keep := (p: Post) => CategoryName(p.category) == filter;
      FilterMembers(posts, keep);
      Filter(posts, keep)
  }

  /** The filter keeps the listed order: it distributes over concatenation, and
      a single post is kept exactly when the filter is `all` or names its
      category. By induction on the list these two fix the result. */
  lemma FilterPostsKeepsOrder(a: seq<Post>, b: seq<Post>, p: Post, filter: string)
    ensures FilterPosts(a + b, filter) == FilterPosts(a, filter) + FilterPosts(b, filter)
    ensures FilterPosts([p], filter) == if filter == "all" || CategoryName(p.category) == filter then [p] else []
  {
    if filter != "all" {
      var keep := (p: Post) => CategoryName(p.category) == filter;
      FilterConcat(a, b, keep);
      FilterHead([p], keep);
    }
  }

  /** A filter value that names no category shows nothing. */
  lemma UnknownFilterShowsNothing(posts: seq<Post>, filter: string)
    requires filter !in CategoryNames && filter != "all"
    ensures FilterPosts(posts, filter) == []
  {
    forall i | 0 <= i < |posts| ensures CategoryName(posts[i].category) != filter {
      assert CategoryName(posts[i].category) in CategoryNames;
    }
    FilterNone(posts, (p: Post) => CategoryName(p.category) == filter);
  }

  /** The four category views together show every post, each as often as it is listed. */
  lemma CategoryViewsPartition(posts: seq<Post>)
    ensures multiset(FilterPosts(posts, "general")) + multiset(FilterPosts(posts, "career"))
          + multiset(FilterPosts(posts, "technical")) + multiset(FilterPosts(posts, "resources"))
         == multiset(posts)
  {
    var g, c, t, r := FilterPosts(posts, "general"), FilterPosts(posts, "career"),
                      FilterPosts(posts, "technical"), FilterPosts(posts, "resources");
    forall p ensures (multiset(g) + multiset(c) + multiset(t) + multiset(r))[p] == multiset(posts)[p] {
      match p.category
      case General =>
        assert multiset(c)[p] == 0 && multiset(t)[p] == 0 && multiset(r)[p] == 0;
      case Career =>
        assert multiset(g)[p] == 0 && multiset(t)[p] == 0 && multiset(r)[p] == 0;
      case Technical =>
        assert multiset(g)[p] == 0 && multiset(c)[p] == 0 && multiset(r)[p] == 0;
      case Resources =>
        assert multiset(g)[p] == 0 && multiset(c)[p] == 0 && multiset(t)[p] == 0;
    }
  }

  /** `posts.map(p => p._id === id ? { ...p, <field> } : p)`: the posts with
      that id are changed, every other post is kept, positions and all. */
  function ChangeWhere(posts: seq<Post>, id: Id, change: Post -> Post): (r: seq<Post>)
    ensures |r| == |posts|
    ensures forall j :: 0 <= j < |posts| ==> r[j] == if posts[j].id == id then change(posts[j]) else posts[j]
  {
    MapSeq(posts, (p: Post) => if p.id == id then change(p) else p)
  }

  /** The list after a like: the reply's likes replace those of the post. */
  function WithLikes(posts: seq<Post>, id: Id, likes: seq<Id>): seq<Post> {
    ChangeWhere(posts, id, (p: Post) => p.(likes := likes))
  }

  /** The list after a comment: the reply's comments replace those of the post. */
  function WithComments(posts: seq<Post>, id: Id, comments: seq<Comment>): seq<Post> {
    ChangeWhere(posts, id, (p: Post) => p.(comments := comments))
  }

  /** Post ids are distinct in the store. */
  predicate DistinctIds(store: seq<Post>) {
    forall i, j :: 0 <= i < j < |store| ==> store[i].id != store[j].id
  }

  /** A list the page shows is in step with the store when each of its posts is stored as shown. */
  predicate InStep(view: seq<Post>, store: seq<Post>) {
    forall k :: 0 <= k < |view| ==> view[k] in store
  }

  /** After a successful like the page's list, updated with the reply, is
      still in step with the store. */
  lemma LikeKeepsViewInStep(store: seq<Post>, nextId: Id, me: Id, id: Id, view: seq<Post>)
    requires DistinctIds(store) && InStep(view, store)
    requires PostController.LikeStep(store, nextId, me, id).reply.Ok?
    ensures var o := PostController.LikeStep(store, nextId, me, id);
      InStep(WithLikes(view, id, o.reply.value), o.store)
  {
    var o := PostController.LikeStep(store, nextId, me, id);
    var i := IndexOfId(store, id).value;
    var r := WithLikes(view, id, o.reply.value);
    forall k | 0 <= k < |view| ensures r[k] in o.store {
      var j :| 0 <= j < |store| && store[j] == view[k];
      if view[k].id == id {
        assert j == i;
      }
      assert r[k] == o.store[j];
    }
  }

  /** The forum page's state: the listed posts and the post open in the detail
      modal, if any. */
  datatype Page = Page(posts: seq<Post>, selected: Option<Post>)

  /** `handleLike` as written: the reply's likes go into the list only; the
      open post, whose heart the modal also offers, is left as it was. */
  function LikeAsWritten(page: Page, id: Id, likes: seq<Id>): Page {
    page.(posts := WithLikes(page.posts, id, likes))
  }

  /** `handleLike` as `handleComment` does it: the open post takes the reply too. */
  function LikeIntended(page: Page, id: Id, likes: seq<Id>): Page {
    Page(WithLikes(page.posts, id, likes),
         if page.selected.Some? && page.selected.value.id == id
         then Some(page.selected.value.(likes := likes)) else page.selected)
  }

  /** A page is in step with the store when every listed post and the open
      post are stored as shown. */
  predicate PageInStep(page: Page, store: seq<Post>) {
    InStep(page.posts, store) && (page.selected.Some? ==> page.selected.value in store)
  }

  /** As written, liking the open post from the modal leaves the modal out of
      step: the like always succeeds and changes the stored likes, but the
      open post keeps the old ones, which no stored post has any more. */
  lemma LikeLeavesOpenPostStale(store: seq<Post>, nextId: Id, me: Id, page: Page)
    requires DistinctIds(store) && page.selected.Some? && page.selected.value in store
    ensures var id := page.selected.value.id;
      var o := PostController.LikeStep(store, nextId, me, id);
      && o.reply.Ok?
      && LikeAsWritten(page, id, o.reply.value).selected == page.selected
      && page.selected.value !in o.store
  {
    var sel := page.selected.value;
    var o := PostController.LikeStep(store, nextId, me, sel.id);
    var j0 :| 0 <= j0 < |store| && store[j0] == sel;
    assert IndexOfId(store, sel.id) == Some(j0);
    assert o.store[j0].likes != sel.likes by {
      assert (me in o.store[j0].likes) != (me in sel.likes);
    }
    forall k | 0 <= k < |o.store| ensures o.store[k] != sel {
      if k != j0 {
        assert o.store[k] == store[k];
      }
    }
  }

  /** With the open post updated too, a successful like keeps the whole page
      in step with the store. */
  lemma IntendedLikeKeepsPageInStep(store: seq<Post>, nextId: Id, me: Id, id: Id, page: Page)
    requires DistinctIds(store) && PageInStep(page, store)
    requires PostController.LikeStep(store, nextId, me, id).reply.Ok?
    ensures var o := PostController.LikeStep(store, nextId, me, id);
      PageInStep(LikeIntended(page, id, o.reply.value), o.store)
  {
    var o := PostController.LikeStep(store, nextId, me, id);
    LikeKeepsViewInStep(store, nextId, me, id, page.posts);
    if page.selected.Some? {
      var sel := page.selected.value;
      var i := IndexOfId(store, id).value;
      var j :| 0 <= j < |store| && store[j] == sel;
      if sel.id == id {
        assert j == i;
        assert o.store[i] == sel.(likes := o.reply.value);
      } else {
        assert o.store[j] == sel;
      }
    }
  }

  /** `handleComment`: nothing is sent for a blank comment or when no post is open. */
  function CommentTarget(comment: string, selected: Option<Post>): (r: Option<Id>)
    ensures r.Some? <==> !IsBlank(comment) && selected.Some?
    ensures r.Some? ==> r.value == selected.value.id
  {
    if IsBlank(comment) || selected.None? then None else Some(selected.value.id)
  }

  /** After a successful comment both the open post and the list, updated
      with the reply, are in step with the store. */
  lemma CommentKeepsViewInStep(store: seq<Post>, nextId: Id, me: Id, comment: string, selected: Option<Post>,
                               view: seq<Post>, now: int)
    requires DistinctIds(store) && InStep(view, store)
    requires selected.Some? && selected.value in store
    requires CommentTarget(comment, selected).Some?
    ensures var o := PostController.CommentStep(store, nextId, me, selected.value.id, Some(comment), now);
      && o.reply.Ok?
      && selected.value.(comments := o.reply.value) in o.store
      && InStep(WithComments(view, selected.value.id, o.reply.value), o.store)
  {
    var id := selected.value.id;
    var o := PostController.CommentStep(store, nextId, me, id, Some(comment), now);
    var i := IndexOfId(store, id).value;
    var j0 :| 0 <= j0 < |store| && store[j0] == selected.value;
    assert j0 == i;
    assert o.store[i] == selected.value.(comments := o.reply.value);
    var r := WithComments(view, id, o.reply.value);
    forall k | 0 <= k < |view| ensures r[k] in o.store {
      var j :| 0 <= j < |store| && store[j] == view[k];
      if view[k].id == id {
        assert j == i;
      }
      assert r[k] == o.store[j];
    }
  }

  /** The filter bar's values: `all`, then the four categories. */
  const FilterValues: seq<string> := ["all", "general", "career", "technical", "resources"]

  /** The new-post form offers every value but `all`. */
  function CategoryOptions(): (r: seq<string>)
  {
    Filter(FilterValues, (v: string) => v != "all")
  }

  /** The form's options are exactly the schema's categories, in its order. */
  lemma CategoryOptionsMatchSchema()
    ensures CategoryOptions() == CategoryNames
  {
    var p := (v: string) => v != "all";
    assert FilterValues[1..] == CategoryNames;
    assert Filter(FilterValues, p) == Filter(CategoryNames, p);
    FilterAll(CategoryNames, p);
  }

  /** So a post created with any option of the form passes the category check. */
  lemma FormCategoriesAccepted(v: string)
    requires v in CategoryOptions()
    ensures PostController.CategoryOrDefault(Some(v)).Some?
  {
    CategoryOptionsMatchSchema();
    NamesParse(v);
  }
}
