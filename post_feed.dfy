/**
 * The `getAll` query of src/server/api/routers/post.ts: fetch the newest page
 * of posts, ask the user directory for their authors in one call, and pair
 * every post with the first directory user whose id is the post's author id.
 *
 * The post store and the user directory are external services; they appear
 * here as functions from the exact request the query sends to the list the
 * service answers with.
 */
module PostFeed {
  import opened Wrappers
  import opened UserProjection
  import opened PostData

  datatype SortOrder = Desc
  /** `findMany({ take, orderBy: [{ createdAt: ... }] })` on the post table. */
  datatype FindManyArgs = FindManyArgs(take: nat, orderByCreatedAt: SortOrder)
  /** `getUserList({ userId, limit })` on the user directory. */
  datatype UserListArgs = UserListArgs(userId: seq<string>, limit: nat)

  const PAGE_SIZE: nat := 100
  const DIRECTORY_LIMIT: nat := 100
  /** The one store query `getAll` sends: the newest 100 posts. */
  const PAGE_QUERY: FindManyArgs := FindManyArgs(PAGE_SIZE, Desc)

  /** A post with its author, who is absent when the directory did not return one. */
  datatype EnrichedPost = EnrichedPost(post: Post, author: Option<AuthorView>)

  /** Posts ordered by `createdAt`, newest first. */
  ghost predicate NewestFirst(posts: seq<Post>) {
    forall i, j :: 0 <= i < j < |posts| ==> posts[i].createdAt >= posts[j].createdAt
  }

  /** What the store promises for a query: at most `take` posts, newest first (the only order `getAll` asks for). */
  ghost predicate Honours(page: seq<Post>, q: FindManyArgs) {
    |page| <= q.take && NewestFirst(page)
  }

  /** The directory request: the author id of every post of the page, in page order, limit 100. */
  function DirectoryQuery(posts: seq<Post>): (q: UserListArgs)
    ensures q.limit == DIRECTORY_LIMIT
    ensures |q.userId| == |posts|
    ensures forall i :: 0 <= i < |posts| ==> q.userId[i] == posts[i].authorId
    ensures forall p :: p in posts ==> p.authorId in q.userId
  {
    UserListArgs(seq(|posts|, i requires 0 <= i < |posts| => posts[i].authorId), DIRECTORY_LIMIT)
  }

  /** `users.map(filterUser4Client)`: one view per directory user, in the same order. */
  function ProjectAll(users: seq<User>): (views: seq<AuthorView>)
    ensures |views| == |users|
    ensures forall k :: 0 <= k < |users| ==> views[k] == FilterUser4Client(users[k]) && views[k].id == users[k].id
  {
    seq(|users|, k requires 0 <= k < |users| => FilterUser4Client(users[k]))
  }

  /** Position `k` holds the first view whose id is `id`. */
  ghost predicate IsFirstMatch(views: seq<AuthorView>, id: string, k: int) {
    0 <= k < |views| && views[k].id == id && forall j :: 0 <= j < k ==> views[j].id != id
  }

  /**
   * `users.find((user) => user.id === authorId)`: absent exactly when no view
   * has the id; otherwise the first view, in list order, that has it.
   */
  function FindAuthor(views: seq<AuthorView>, id: string): (found: Option<AuthorView>)
    ensures found.None? <==> forall v :: v in views ==> v.id != id
    ensures found.Some? ==> exists k :: IsFirstMatch(views, id, k) && views[k] == found.value
  {
    if views == [] then None
    else if views[0].id == id then Some(views[0])
    else
      var rest := FindAuthor(views[1..], id);
      if rest.Some? then
        ghost var k :| IsFirstMatch(views[1..], id, k) && views[1..][k] == rest.value;
        assert IsFirstMatch(views, id, k + 1);
        rest
      else
        rest
  }

  /** Every view with the given id, in list order: a reference definition for `FindAuthor`. */
  function Matches(views: seq<AuthorView>, id: string): (ms: seq<AuthorView>)
    ensures forall v :: v in ms ==> v in views && v.id == id
  {
    if views == [] then []
    else (if views[0].id == id then [views[0]] else []) + Matches(views[1..], id)
  }

  /** `find` returns the head of the list of matches, and nothing when that list is empty. */
  lemma {:induction false} FindAuthorIsFirstMatch(views: seq<AuthorView>, id: string)
    ensures FindAuthor(views, id) == (var ms := Matches(views, id); if ms == [] then None else Some(ms[0]))
  {
    if views != [] && views[0].id != id {
      FindAuthorIsFirstMatch(views[1..], id);
    }
  }

  /**
   * `posts.map((post) => ({ post, author: users.find(...) }))`: the same
   * posts in the same order, each with the first view whose id is its author
   * id, or with no author when there is none.
   */
  function Enrich(posts: seq<Post>, views: seq<AuthorView>): (r: seq<EnrichedPost>)
    ensures |r| == |posts|
    ensures forall i :: 0 <= i < |posts| ==> r[i].post == posts[i]
    ensures forall i :: 0 <= i < |posts| ==>
      (r[i].author.None? <==> forall v :: v in views ==> v.id != posts[i].authorId)
    ensures forall i :: 0 <= i < |posts| && r[i].author.Some? ==>
      r[i].author.value.id == posts[i].authorId &&
      exists k :: IsFirstMatch(views, posts[i].authorId, k) && views[k] == r[i].author.value
  {
    if posts == [] then []
    else [EnrichedPost(posts[0], FindAuthor(views, posts[0].authorId))] + Enrich(posts[1..], views)
  }

  /** The directory's answer for a page, projected for the client. */
  function AuthorsOf(page: seq<Post>, getUserList: UserListArgs -> seq<User>): seq<AuthorView> {
    ProjectAll(getUserList(DirectoryQuery(page)))
  }

  /**
   * `getAll`: the newest page of posts, each paired with its author. The
   * result has one entry per fetched post, in the store's order, and each
   * entry's post is the fetched post unchanged.
   */
  function GetAll(findMany: FindManyArgs -> seq<Post>, getUserList: UserListArgs -> seq<User>)
    : (r: seq<EnrichedPost>)
    ensures |r| == |findMany(PAGE_QUERY)|
    ensures forall i :: 0 <= i < |r| ==> r[i].post == findMany(PAGE_QUERY)[i]
  {
    var posts := findMany(PAGE_QUERY);
    Enrich(posts, AuthorsOf(posts, getUserList))
  }

  /**
   * The author of entry `i` is absent exactly when no user of the directory's
   * answer has the post's author id; otherwise it is the projection of the
   * first such user in the answer's order.
   */
  lemma GetAllAuthor(findMany: FindManyArgs -> seq<Post>, getUserList: UserListArgs -> seq<User>, i: nat)
    requires i < |findMany(PAGE_QUERY)|
    ensures var page := findMany(PAGE_QUERY);
            var users := getUserList(DirectoryQuery(page));
            var author := GetAll(findMany, getUserList)[i].author;
            (author.None? <==> forall k :: 0 <= k < |users| ==> users[k].id != page[i].authorId) &&
            (author.Some? ==> exists k :: 0 <= k < |users| && users[k].id == page[i].authorId &&
                                (forall j :: 0 <= j < k ==> users[j].id != page[i].authorId) &&
                                author.value == FilterUser4Client(users[k]))
  {
  }

  /**
   * When the store honours the page query, `getAll` returns at most 100
   * entries, newest post first.
   */
  lemma GetAllPage(findMany: FindManyArgs -> seq<Post>, getUserList: UserListArgs -> seq<User>)
    requires Honours(findMany(PAGE_QUERY), PAGE_QUERY)
    ensures var r := GetAll(findMany, getUserList);
            |r| <= PAGE_SIZE &&
            forall i, j :: 0 <= i < j < |r| ==> r[i].post.createdAt >= r[j].post.createdAt
  {
  }

  /**
   * The directory is asked once, for the author of every post of the page,
   * with limit 100; when the page is empty the feed is empty whatever the
   * directory answers.
   */
  lemma GetAllQueriesEveryAuthor(findMany: FindManyArgs -> seq<Post>, getUserList: UserListArgs -> seq<User>)
    ensures var q := DirectoryQuery(findMany(PAGE_QUERY));
            q.limit == DIRECTORY_LIMIT && forall p :: p in findMany(PAGE_QUERY) ==> p.authorId in q.userId
    ensures findMany(PAGE_QUERY) == [] ==> GetAll(findMany, getUserList) == []
  {
  }
}
