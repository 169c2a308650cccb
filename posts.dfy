/** The post workflow: required-field checks, author-only mutation and
    paged listing over an in-memory post table kept in insertion order. */
module Posts {
  import opened Base

  /** Timestamps are readings of an abstract clock. */
  type Timestamp = nat

  datatype Post = Post(
    id: nat,
    title: string,
    content: string,
    userId: string,
    createdDate: Timestamp,
    modifiedDate: Timestamp)

  /** The body of a create request. */
  datatype CreatePostDto = CreatePostDto(title: Field, content: Field)

  /** The body of an update request: the same fields, each of which may be
      left out. */
  type UpdatePostDto = CreatePostDto

  /** A number received by `findAll`: either `NaN` (what an absent query
      parameter becomes) or a value. */
  datatype Num<T> = NaN | Value(value: T)

  type Positive = n: nat | n > 0 witness 1

  /** The response of `findAll`: the page and its own length. */
  datatype PageResult = PageResult(count: nat, data: seq<Post>)

  const DefaultLimit: nat := 10
  const DefaultOffset: nat := 0

  /** The emptiness test used for both the title and the content: `null`,
      `undefined` or `''`. */
  function IsEmptyText(f: Field): (b: bool)
    ensures b <==> !Truthy(f)
  {
    f == None || f == Some("")
  }

  /** The create guard: the title is checked before the content. */
  function CheckTitleContentEmpty(title: Field, content: Field): (r: Outcome<HttpException>)
    ensures IsEmptyText(title) ==> r == Fail(HttpException(BadRequest, TitleEmpty))
    ensures !IsEmptyText(title) && IsEmptyText(content) ==> r == Fail(HttpException(BadRequest, ContentEmpty))
    ensures r == Pass <==> Truthy(title) && Truthy(content)
  {
    if IsEmptyText(title) then Fail(HttpException(BadRequest, TitleEmpty))
    else if IsEmptyText(content) then Fail(HttpException(BadRequest, ContentEmpty))
    else Pass
  }

  /** The ownership guard: only the author may change or delete a post. */
  function CheckPostWriter(post: Post, userId: string): (r: Outcome<HttpException>)
    ensures r == Pass <==> post.userId == userId
    ensures r != Pass ==> r == Fail(HttpException(Forbidden, NotWriter(userId)))
  {
    if post.userId != userId then Fail(HttpException(Forbidden, NotWriter(userId))) else Pass
  }

  /** Ids in the table grow with insertion order, so no two posts share one. */
  ghost predicate IdsIncreasing(s: seq<Post>) {
    forall i, j :: 0 <= i < j < |s| ==> s[i].id < s[j].id
  }

  ghost predicate IdsBelow(s: seq<Post>, bound: nat) {
    forall i :: 0 <= i < |s| ==> s[i].id < bound
  }

  /** The position of the post with the given id, as the store's lookup by
      primary key finds it. */
  function IndexOf(s: seq<Post>, id: int): (r: Option<nat>)
    ensures r.Some? ==> r.value < |s| && s[r.value].id == id
    ensures r.Some? ==> forall j :: 0 <= j < r.value ==> s[j].id != id
    ensures r.None? <==> forall j :: 0 <= j < |s| ==> s[j].id != id
  {
    if s == [] then None
    else if s[0].id == id then Some(0)
    else match IndexOf(s[1..], id)
      case None => None
      case Some(k) => Some(k + 1)
  }

  /** The page of `s` that skips `offset` rows and takes at most `limit`. */
  function Window(s: seq<Post>, offset: nat, limit: nat): (w: seq<Post>)
    ensures |w| == if offset >= |s| then 0 else if limit < |s| - offset then limit else |s| - offset
    ensures forall i :: 0 <= i < |w| ==> offset + i < |s| && w[i] == s[offset + i]
  {
    var lo := if offset < |s| then offset else |s|;
    var hi := if offset + limit < |s| then offset + limit else |s|;
    s[lo..hi]
  }

  /** The post after an update: a field is replaced only when the request
      supplies a truthy value for it; the modification time is refreshed. */
  function Merge(post: Post, dto: UpdatePostDto, now: Timestamp): (p: Post)
    ensures p.id == post.id && p.userId == post.userId && p.createdDate == post.createdDate
    ensures p.modifiedDate == now
    ensures Truthy(dto.title) ==> p.title == dto.title.value
    ensures !Truthy(dto.title) ==> p.title == post.title
    ensures Truthy(dto.content) ==> p.content == dto.content.value
    ensures !Truthy(dto.content) ==> p.content == post.content
  {
    post.(
      title := if Truthy(dto.title) then dto.title.value else post.title,
      content := if Truthy(dto.content) then dto.content.value else post.content,
      modifiedDate := now)
  }

  /** A post appended with an id above every stored id is found at the end. */
  lemma {:induction false} IndexOfAppended(s: seq<Post>, p: Post)
    requires IdsBelow(s, p.id)
    ensures IndexOf(s + [p], p.id) == Some(|s|)
  {
    if s != [] {
      assert (s + [p])[1..] == s[1..] + [p];
      IndexOfAppended(s[1..], p);
    }
  }

  /** Appending a post does not move the lookup of any other id. */
  lemma {:induction false} IndexOfAppendedOther(s: seq<Post>, p: Post, id: int)
    requires id != p.id
    ensures IndexOf(s + [p], id) == IndexOf(s, id)
  {
    if s != [] {
      assert (s + [p])[1..] == s[1..] + [p];
      IndexOfAppendedOther(s[1..], p, id);
    } else {
      assert [p][1..] == [];
    }
  }

  /** With distinct ids, the lookup of a stored post's id finds that post. */
  lemma IndexOfStored(s: seq<Post>, k: nat)
    requires IdsIncreasing(s) && k < |s|
    ensures IndexOf(s, s[k].id) == Some(k)
  {
  }

  /** The table without the row at position `k`, the others keeping their
      order. */
  function Without(s: seq<Post>, k: nat): (t: seq<Post>)
    requires k < |s|
    ensures |t| == |s| - 1
    ensures forall j :: 0 <= j < |t| ==> t[j] == if j < k then s[j] else s[j + 1]
  {
    s[..k] + s[k + 1..]
  }

  /** Deleting the post at position `k` keeps the ids increasing and leaves
      no post with its id. */
  lemma DeletedIdGone(s: seq<Post>, k: nat)
    requires IdsIncreasing(s) && k < |s|
    ensures IdsIncreasing(Without(s, k))
    ensures forall j :: 0 <= j < |s| - 1 ==> Without(s, k)[j].id != s[k].id
  {
  }

  /** A post absent from the table is absent from every page. */
  lemma AbsentFromEveryPage(s: seq<Post>, id: int, offset: nat, limit: nat)
    requires forall j :: 0 <= j < |s| ==> s[j].id != id
    ensures forall p :: p in Window(s, offset, limit) ==> p.id != id
  {
  }

  /** Once the post at position `k` is deleted, no page of the table lists
      it. */
  lemma {:induction false} RemovedNeverListed(s: seq<Post>, k: nat, offset: nat, limit: nat)
    requires IdsIncreasing(s) && k < |s|
    ensures forall p :: p in Window(Without(s, k), offset, limit) ==> p.id != s[k].id
  {
    DeletedIdGone(s, k);
    AbsentFromEveryPage(Without(s, k), s[k].id, offset, limit);
  }

  /** Listing eleven posts with limit 3 and offset 3 gives the fourth to the
      sixth, in creation order. */
  lemma ThirdPageOfEleven(s: seq<Post>)
    requires |s| == 11
    ensures Window(s, 3, 3) == [s[3], s[4], s[5]]
  {
  }

  class PostsService {
    /** The post table in insertion order. */
    var posts: seq<Post>
    /** The id the store assigns to the next inserted post. */
    var nextId: nat

    ghost predicate Valid()
      reads this
    {
      IdsIncreasing(posts) && IdsBelow(posts, nextId)
    }

    constructor ()
      ensures Valid() && posts == [] && nextId == 1
    {
      posts := [];
      nextId := 1;
    }

    /** `create`: checks the title, then the content, then inserts. */
    method Create(dto: CreatePostDto, userId: string, now: Timestamp) returns (r: Result<Post, HttpException>)
      requires Valid()
      modifies this
      ensures Valid()
      ensures IsEmptyText(dto.title) ==> r == Failure(HttpException(BadRequest, TitleEmpty))
      ensures !IsEmptyText(dto.title) && IsEmptyText(dto.content) ==> r == Failure(HttpException(BadRequest, ContentEmpty))
      ensures r.Failure? ==> posts == old(posts) && nextId == old(nextId)
      ensures r.Success? <==> Truthy(dto.title) && Truthy(dto.content)
      ensures r.Success? ==>
        && r.value == Post(old(nextId), dto.title.value, dto.content.value, userId, now, now)
        && posts == old(posts) + [r.value]
        && nextId == old(nextId) + 1
      ensures r.Success? ==> FindOne(r.value.id) == Success(r.value)
      ensures r.Success? ==> forall id :: id != r.value.id ==> FindOne(id) == old(FindOne(id))
    {
      var check := CheckTitleContentEmpty(dto.title, dto.content);
      if check.Fail? {
        r := Failure(check.error);
        return;
      }
      var post := Post(nextId, dto.title.value, dto.content.value, userId, now, now);
      IndexOfAppended(posts, post);
      forall id | id != post.id
        ensures IndexOf(posts + [post], id) == IndexOf(posts, id)
      {
        IndexOfAppendedOther(posts, post, id);
      }
      posts := posts + [post];
      nextId := nextId + 1;
      r := Success(post);
    }

    /** `findAll`: a `NaN` limit or offset falls back to its default; the
        count is the size of the page, not of the table. */
    method FindAll(limit: Num<Positive>, offset: Num<nat>) returns (res: PageResult)
      ensures res.count == |res.data|
      ensures var l := if limit.NaN? then DefaultLimit else limit.value as nat;
              var o := if offset.NaN? then DefaultOffset else offset.value;
              res.data == Window(posts, o, l)
    {
      var l: nat := if limit.NaN? then DefaultLimit else limit.value;
      var o: nat := if offset.NaN? then DefaultOffset else offset.value;
      var data := Window(posts, o, l);
      res := PageResult(|data|, data);
    }

    /** `findOne`: a missing id is reported as a bad request. */
    function FindOne(id: int): (r: Result<Post, HttpException>)
      reads this
      ensures r.Success? <==> exists j :: 0 <= j < |posts| && posts[j].id == id
      ensures r.Success? ==> r.value in posts && r.value.id == id
      ensures r.Failure? ==> r.error == HttpException(BadRequest, PostNotFound(id))
    {
      match IndexOf(posts, id)
      case None => Failure(HttpException(BadRequest, PostNotFound(id)))
      case Some(k) => Success(posts[k])
    }

    /** `update`: rejects a request with neither field before any lookup,
        then a missing post, then a caller who is not the author; on success
        it writes back the merged post in place. */
    method Update(id: int, dto: UpdatePostDto, userId: string, now: Timestamp) returns (r: Result<Post, HttpException>)
      requires Valid()
      modifies this
      ensures Valid() && nextId == old(nextId)
      ensures IsEmptyText(dto.title) && IsEmptyText(dto.content) ==>
        r == Failure(HttpException(BadRequest, InvalidUpdate))
      ensures !(IsEmptyText(dto.title) && IsEmptyText(dto.content)) && IndexOf(old(posts), id).None? ==>
        r == Failure(HttpException(BadRequest, PostNotFound(id)))
      ensures !(IsEmptyText(dto.title) && IsEmptyText(dto.content)) && IndexOf(old(posts), id).Some? &&
              old(posts)[IndexOf(old(posts), id).value].userId != userId ==>
        r == Failure(HttpException(Forbidden, NotWriter(userId)))
      ensures r.Failure? ==> posts == old(posts)
      ensures r.Success? <==>
        && !(IsEmptyText(dto.title) && IsEmptyText(dto.content))
        && IndexOf(old(posts), id).Some?
        && old(posts)[IndexOf(old(posts), id).value].userId == userId
      ensures r.Success? ==>
        var k := IndexOf(old(posts), id).value;
        && r.value == Merge(old(posts)[k], dto, now)
        && posts == old(posts)[k := r.value]
        && FindOne(id) == Success(r.value)
    {
      if IsEmptyText(dto.title) && IsEmptyText(dto.content) {
        r := Failure(HttpException(BadRequest, InvalidUpdate));
        return;
      }
      var found := FindOne(id);
      if found.Failure? {
        r := Failure(found.error);
        return;
      }
      var post := found.value;
      var check := CheckPostWriter(post, userId);
      if check.Fail? {
        r := Failure(check.error);
        return;
      }
      var k := IndexOf(posts, id).value;
      post := Merge(post, dto, now);
      posts := posts[k := post];
      IndexOfStored(posts, k);
      r := Success(post);
    }

    /** `remove`: rejects a missing post, then a caller who is not the
        author; on success deletes the row and returns the deleted post. */
    method Remove(id: int, userId: string) returns (r: Result<Post, HttpException>)
      requires Valid()
      modifies this
      ensures Valid() && nextId == old(nextId)
      ensures IndexOf(old(posts), id).None? ==> r == Failure(HttpException(BadRequest, PostNotFound(id)))
      ensures IndexOf(old(posts), id).Some? && old(posts)[IndexOf(old(posts), id).value].userId != userId ==>
        r == Failure(HttpException(Forbidden, NotWriter(userId)))
      ensures r.Failure? ==> posts == old(posts)
      ensures r.Success? <==> IndexOf(old(posts), id).Some? && old(posts)[IndexOf(old(posts), id).value].userId == userId
      ensures r.Success? ==>
        var k := IndexOf(old(posts), id).value;
        && r.value == old(posts)[k]
        && posts == Without(old(posts), k)
      ensures r.Success? ==> FindOne(id).Failure? && forall j :: 0 <= j < |posts| ==> posts[j].id != id
    {
      var found := FindOne(id);
      if found.Failure? {
        r := Failure(found.error);
        return;
      }
      var post := found.value;
      var check := CheckPostWriter(post, userId);
      if check.Fail? {
        r := Failure(check.error);
        return;
      }
      var k := IndexOf(posts, id).value;
      DeletedIdGone(posts, k);
      posts := Without(posts, k);
      r := Success(post);
    }
  }
}
