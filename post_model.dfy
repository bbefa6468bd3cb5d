/** The `Post` and embedded `Comment` schemas of the forum, and the collection. */
module PostModel {
  import opened Common
  import opened Text

  datatype Category = General | Career | Technical | Resources

  function CategoryName(c: Category): string {
    match c
    case General => "general"
    case Career => "career"
    case Technical => "technical"
    case Resources => "resources"
  }

  /** Enum validation of `category`. */
  function ParseCategory(s: string): (r: Option<Category>)
    ensures r.Some? <==> s in {"general", "career", "technical", "resources"}
    ensures r.Some? ==> CategoryName(r.value) == s
  {
    if s == "general" then Some(General)
    else if s == "career" then Some(Career)
    else if s == "technical" then Some(Technical)
    else if s == "resources" then Some(Resources)
    else None
  }

  /** The enum's names, in the schema's order. */
  const CategoryNames: seq<string> := ["general", "career", "technical", "resources"]

  /** Each listed name is non-empty and parses back to the category it names. */
  lemma NamesParse(v: string)
    requires v in CategoryNames
    ensures v != "" && ParseCategory(v).Some? && CategoryName(ParseCategory(v).value) == v
  {
  }

  /** A comment; `createdAt` defaults to the time it is created. */
  datatype Comment = Comment(author: Id, content: string, createdAt: int)

  datatype Post = Post(
    id: Id,
    author: Id,
    title: string,       // trimmed
    content: string,
    category: Category,  // defaults to general
    likes: seq<Id>,      // user ids
    comments: seq<Comment>,
    tags: seq<string>,   // trimmed
    createdAt: int)

  /** `Post.findById(id)`. */
  function IndexOfId(posts: seq<Post>, id: Id): (r: Option<nat>)
    ensures r.Some? ==> r.value < |posts| && posts[r.value].id == id
    ensures r.Some? ==> forall j :: 0 <= j < r.value ==> posts[j].id != id
    ensures r.None? <==> forall j :: 0 <= j < |posts| ==> posts[j].id != id
  {
    FirstIndex(posts, (p: Post) => p.id == id)
  }

  /** Every id is below the counter, and no two posts share one. */
  ghost predicate IdsBelow(all: seq<Post>, nextId: Id) {
    && (forall i :: 0 <= i < |all| ==> all[i].id < nextId)
    && (forall i, j :: 0 <= i < j < |all| ==> all[i].id != all[j].id)
  }

  /** A post added with the counter's id keeps the ids below the advanced counter. */
  lemma AppendKeepsIds(all: seq<Post>, nextId: Id, p: Post)
    requires IdsBelow(all, nextId) && p.id == nextId
    ensures IdsBelow(all + [p], nextId + 1)
  {
    var all' := all + [p];
    assert forall i :: 0 <= i < |all| ==> all'[i] == all[i];
  }

  /** A post replaced by one with the same id keeps the ids as they were. */
  lemma ReplaceKeepsIds(all: seq<Post>, nextId: Id, i: nat, p: Post)
    requires IdsBelow(all, nextId) && i < |all| && p.id == all[i].id
    ensures IdsBelow(all[i := p], nextId)
  {
    var all' := all[i := p];
    assert forall j :: 0 <= j < |all| ==> all'[j].id == all[j].id;
  }

  /** The `posts` collection. */
  class Posts {
    var all: seq<Post>
    var nextId: Id

    ghost predicate Valid()
      reads this
    {
      IdsBelow(all, nextId)
    }

    constructor ()
      ensures Valid() && all == [] && nextId == 0
    {
      all := [];
      nextId := 0;
    }

    /** `save()` on a stored post: the record at `i` is replaced by one with the same id. */
    method Replace(i: nat, p: Post)
      requires Valid() && i < |all| && p.id == all[i].id
      modifies this
      ensures Valid() && all == old(all)[i := p] && nextId == old(nextId)
    {
      ReplaceKeepsIds(all, nextId, i, p);
      all := all[i := p];
    }

    /** `save()` on a new post, which gets the next id. */
    method Insert(p: Post)
      requires Valid() && p.id == nextId
      modifies this
      ensures Valid() && all == old(all) + [p] && nextId == old(nextId) + 1
    {
      AppendKeepsIds(all, nextId, p);
      all := all + [p];
      nextId := nextId + 1;
    }
  }
}
