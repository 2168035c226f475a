/**
 * The routes of backend/src/routes/forum.ts, all behind `requireAuth`.
 * Posts record their true author whatever the anonymity flag; the listing
 * filters by college only when a `college` query is given; only deletion
 * checks "author or admin".
 */
module ForumRoutes {
  import opened Common
  import opened Models
  import opened Http
  import opened AuthMiddleware
  import Ranking

  /** `limit(100)` on the listing. */
  const ListLimit: nat := 100

  /** The body of POST /. An `authorId` sent by the client is never read. */
  datatype PostBody = PostBody(
    title: Option<string>,
    body: Option<string>,
    tags: Option<seq<string>>,
    isAnonymous: Option<JsValue>,
    collegeName: Option<string>,
    authorId: Option<Id>
  )

  /** POST /: the post is attributed to the caller; anonymity is a coerced flag. */
  function CreatePost(db: Db, cred: Credentials, body: PostBody, newId: Id, now: Time): (r: Outcome<Stored<ForumPost>, Db>)
    requires newId !in db.posts
    ensures var g := Gate(cred, db.users, false);
      && (g.Rejected? ==> r.reply == Fail(g.status, g.message))
      && (g.Authenticated? && !Filled(body.body) ==> r.reply == Fail(StatusBadRequest, "body required"))
      && (r.reply.status == StatusCreated <==> g.Authenticated? && Filled(body.body))
    ensures r.reply.status != StatusCreated ==> r.state == db
    ensures r.reply.status == StatusCreated ==>
      && r.reply.Json? && r.reply.value.id == newId
      && var p := r.reply.value.doc;
      && r.state == db.(posts := db.posts[newId := p])
      && p.authorId == Gate(cred, db.users, false).principal.id
      && p.isAnonymous == Truthy(body.isAnonymous)
      && p.body == body.body.value
      && p.title == body.title
      && p.collegeName == body.collegeName
      && p.tags == body.tags.GetOr([])
      && p.comments == []
      && p.upvotes == Some(0)
      && p.createdAt == now
  {
    match Gate(cred, db.users, false)
    case Rejected(s, m) => Outcome(Fail(s, m), db)
    case Authenticated(u) =>
      if !Filled(body.body) then Outcome(Fail(StatusBadRequest, "body required"), db)
      else
        var p := ForumPost(u.id, body.title, body.body.value, body.tags.GetOr([]), body.collegeName,
                           [], Truthy(body.isAnonymous), Some(0), now);
        Outcome(Json(StatusCreated, Stored(newId, p)), db.(posts := db.posts[newId := p]))
  }

  /** The listing's filter: a given `college` query must equal the post's `collegeName`. */
  predicate InCollege(p: ForumPost, college: Option<string>) {
    Filled(college) ==> p.collegeName == college
  }

  /** The creation stamps of the posts the listing selects. */
  function Selected(posts: map<Id, ForumPost>, college: Option<string>): (m: map<Id, Time>)
    ensures forall id :: id in m <==> id in posts && InCollege(posts[id], college)
    ensures forall id :: id in m ==> m[id] == posts[id].createdAt
  {
    map id | id in posts && InCollege(posts[id], college) :: posts[id].createdAt
  }

  /**
   * GET /: at most 100 posts, newest first. Without a `college` query every
   * college's posts are candidates; there is no tenant isolation.
   */
  method ListPosts(db: Db, cred: Credentials, college: Option<string>) returns (r: Reply<seq<Stored<ForumPost>>>)
    ensures var g := Gate(cred, db.users, false);
      && (g.Rejected? ==> r == Fail(g.status, g.message))
      && (g.Authenticated? <==> r.Json?)
    ensures r.Json? ==>
      var sel := Selected(db.posts, college);
      && r.status == StatusOk
      && |r.value| == (if |sel| < ListLimit then |sel| else ListLimit)
      && (forall i :: 0 <= i < |r.value| ==>
            r.value[i].id in db.posts && r.value[i].doc == db.posts[r.value[i].id]
            && InCollege(r.value[i].doc, college))
      && (forall i, j :: 0 <= i < j < |r.value| ==> r.value[i].id != r.value[j].id)
      && (forall i, j :: 0 <= i < j < |r.value| ==> r.value[i].doc.createdAt >= r.value[j].doc.createdAt)
      && (forall id, i :: id in sel && 0 <= i < |r.value| && (forall k :: 0 <= k < |r.value| ==> r.value[k].id != id) ==>
            db.posts[id].createdAt <= r.value[i].doc.createdAt)
  {
    match Gate(cred, db.users, false)
    case Rejected(s, m) => r := Fail(s, m);
    case Authenticated(_) =>
      var sel := Selected(db.posts, college);
      var ids := Ranking.TopNewest(sel, ListLimit);
      var docs := seq(|ids|, i requires 0 <= i < |ids| && ids[i] in db.posts => Stored(ids[i], db.posts[ids[i]]));
      assert forall k :: 0 <= k < |ids| ==> docs[k].id == ids[k];
      forall id, i | id in sel && 0 <= i < |docs| && (forall k :: 0 <= k < |docs| ==> docs[k].id != id)
        ensures db.posts[id].createdAt <= docs[i].doc.createdAt
      {
        assert id !in ids;
      }
      r := Json(StatusOk, docs);
  }

  /** GET /:id. */
  function GetPost(db: Db, cred: Credentials, id: Id): (r: Reply<Stored<ForumPost>>)
    ensures var g := Gate(cred, db.users, false);
      && (g.Rejected? ==> r == Fail(g.status, g.message))
      && (g.Authenticated? && id !in db.posts ==> r == Fail(StatusNotFound, "Not found"))
      && (g.Authenticated? && id in db.posts ==> r == Json(StatusOk, Stored(id, db.posts[id])))
  {
    match Gate(cred, db.users, false)
    case Rejected(s, m) => Fail(s, m)
    case Authenticated(_) =>
      if id !in db.posts then Fail(StatusNotFound, "Not found") else Json(StatusOk, Stored(id, db.posts[id]))
  }

  /**
   * POST /:id/comment. The text is checked before the post is looked up,
   * so empty text is 400 even for an absent post. One comment by the caller
   * is appended; earlier comments are untouched.
   */
  function AddComment(db: Db, cred: Credentials, id: Id, text: Option<string>, now: Time): (r: Outcome<Stored<ForumPost>, Db>)
    ensures var g := Gate(cred, db.users, false);
      && (g.Rejected? ==> r.reply == Fail(g.status, g.message))
      && (g.Authenticated? && !Filled(text) ==> r.reply == Fail(StatusBadRequest, "text required"))
      && (g.Authenticated? && Filled(text) && id !in db.posts ==> r.reply == Fail(StatusNotFound, "Not found"))
      && (r.reply.status == StatusOk <==>
            g.Authenticated? && Filled(text) && id in db.posts && ValidPost(db.posts[id]))
    ensures r.reply.status != StatusOk ==> r.state == db
    ensures r.reply.status == StatusOk ==>
      && r.reply.Json? && id in db.posts
      && var before := db.posts[id];
      && var after := r.reply.value.doc;
      && r.reply.value.id == id
      && r.state == db.(posts := db.posts[id := after])
      && after.(comments := before.comments) == before
      && |after.comments| == |before.comments| + 1
      && after.comments[..|before.comments|] == before.comments
      && after.comments[|before.comments|] == Comment(Gate(cred, db.users, false).principal.id, text.value, now)
  {
    match Gate(cred, db.users, false)
    case Rejected(s, m) => Outcome(Fail(s, m), db)
    case Authenticated(u) =>
      if !Filled(text) then Outcome(Fail(StatusBadRequest, "text required"), db)
      else if id !in db.posts then Outcome(Fail(StatusNotFound, "Not found"), db)
      else
        var before := db.posts[id];
        var c := Comment(u.id, text.value, now);
        var after := before.(comments := before.comments + [c]);
        AppendedCommentValidity(before, c);
        if !ValidPost(after) then Outcome(Fail(StatusServerError, "ForumPost validation failed"), db)
        else Outcome(Json(StatusOk, Stored(id, after)), db.(posts := db.posts[id := after]))
  }

  /** Appending a comment with text keeps a post valid exactly when it was valid. */
  lemma AppendedCommentValidity(p: ForumPost, c: Comment)
    requires c.text != ""
    ensures ValidPost(p.(comments := p.comments + [c])) <==> ValidPost(p)
  {
    var q := p.(comments := p.comments + [c]);
    if ValidPost(q) {
      forall i | 0 <= i < |p.comments| ensures p.comments[i].text != "" {
        assert q.comments[i] == p.comments[i];
      }
    }
  }

  /** The count an upvote starts from: a missing count (or 0) counts as 0. */
  function CurrentVotes(p: ForumPost): (n: int)
    ensures p.upvotes.None? ==> n == 0
    ensures p.upvotes.Some? ==> n == p.upvotes.value
  {
    p.upvotes.GetOr(0)
  }

  /** POST /:id/upvote: the count goes up by exactly one and is returned. */
  function Upvote(db: Db, cred: Credentials, id: Id): (r: Outcome<int, Db>)
    ensures var g := Gate(cred, db.users, false);
      && (g.Rejected? ==> r.reply == Fail(g.status, g.message))
      && (g.Authenticated? && id !in db.posts ==> r.reply == Fail(StatusNotFound, "Not found"))
      && (r.reply.status == StatusOk <==> g.Authenticated? && id in db.posts && ValidPost(db.posts[id]))
    ensures r.reply.status != StatusOk ==> r.state == db
    ensures r.reply.status == StatusOk ==>
      && r.reply.Json? && id in db.posts
      && r.reply.value == CurrentVotes(db.posts[id]) + 1
      && r.state == db.(posts := db.posts[id := db.posts[id].(upvotes := Some(r.reply.value))])
  {
    match Gate(cred, db.users, false)
    case Rejected(s, m) => Outcome(Fail(s, m), db)
    case Authenticated(_) =>
      if id !in db.posts then Outcome(Fail(StatusNotFound, "Not found"), db)
      else
        var p := db.posts[id];
        var n := CurrentVotes(p) + 1;
        if !ValidPost(p) then Outcome(Fail(StatusServerError, "ForumPost validation failed"), db)
        else Outcome(Json(StatusOk, n), db.(posts := db.posts[id := p.(upvotes := Some(n))]))
  }

  /** The store after `n` upvotes on one post by one caller, one after the other. */
  function UpvoteTimes(db: Db, cred: Credentials, id: Id, n: nat): Db
    decreases n
  {
    if n == 0 then db else UpvoteTimes(Upvote(db, cred, id).state, cred, id, n - 1)
  }

  /** `n` sequential upvotes that succeed raise the count by exactly `n`. */
  lemma {:induction false} UpvotesAccumulate(db: Db, cred: Credentials, id: Id, n: nat)
    requires Upvote(db, cred, id).reply.status == StatusOk
    ensures id in UpvoteTimes(db, cred, id, n).posts
    ensures CurrentVotes(UpvoteTimes(db, cred, id, n).posts[id]) == CurrentVotes(db.posts[id]) + n
    decreases n
  {
    if n > 0 {
      var next := Upvote(db, cred, id).state;
      assert next.users == db.users;
      assert next.posts[id] == db.posts[id].(upvotes := Some(CurrentVotes(db.posts[id]) + 1));
      assert ValidPost(next.posts[id]);
      UpvotesAccumulate(next, cred, id, n - 1);
    }
  }

  /** The author-or-admin rule of deletion. */
  predicate MayDelete(u: Principal, p: ForumPost) {
    u.user.role == AdminRole || p.authorId == u.id
  }

  /** DELETE /:id: 404 for an absent post, 403 for others; author or admin removes it. */
  function DeletePost(db: Db, cred: Credentials, id: Id): (r: Outcome<string, Db>)
    ensures var g := Gate(cred, db.users, false);
      && (g.Rejected? ==> r.reply == Fail(g.status, g.message))
      && (g.Authenticated? && id !in db.posts ==> r.reply == Fail(StatusNotFound, "Not found"))
      && (g.Authenticated? && id in db.posts && !MayDelete(g.principal, db.posts[id]) ==>
            r.reply == Fail(StatusForbidden, "Forbidden"))
      && (r.reply.status == StatusOk <==> g.Authenticated? && id in db.posts && MayDelete(g.principal, db.posts[id]))
    ensures r.reply.status != StatusOk ==> r.state == db
    ensures r.reply.status == StatusOk ==>
      && r.reply == Json(StatusOk, "Deleted")
      && id !in r.state.posts
      && r.state == db.(posts := db.posts - {id})
  {
    match Gate(cred, db.users, false)
    case Rejected(s, m) => Outcome(Fail(s, m), db)
    case Authenticated(u) =>
      if id !in db.posts then Outcome(Fail(StatusNotFound, "Not found"), db)
      else if !MayDelete(u, db.posts[id]) then Outcome(Fail(StatusForbidden, "Forbidden"), db)
      else Outcome(Json(StatusOk, "Deleted"), db.(posts := db.posts - {id}))
  }

  /** A post a non-author non-admin tried to delete is still retrievable afterwards. */
  lemma ForbiddenDeleteKeepsPost(db: Db, cred: Credentials, id: Id)
    requires DeletePost(db, cred, id).reply.status == StatusForbidden
    ensures GetPost(DeletePost(db, cred, id).state, cred, id) == Json(StatusOk, Stored(id, db.posts[id]))
  {
  }

  /** Every forum write keeps stored posts valid. */
  lemma ForumWritesPreserveValidity(db: Db, cred: Credentials, body: PostBody, newId: Id, now: Time, id: Id, text: Option<string>)
    requires ValidDb(db)
    requires newId !in db.posts
    ensures ValidDb(CreatePost(db, cred, body, newId, now).state)
    ensures ValidDb(AddComment(db, cred, id, text, now).state)
    ensures ValidDb(Upvote(db, cred, id).state)
    ensures ValidDb(DeletePost(db, cred, id).state)
  {
  }
}
