/**
 * The admin-only routes of backend/src/routes/analytics.ts: log an entry,
 * take a snapshot of the store's sizes (which is itself logged), and list
 * the 50 most recent entries.
 */
module AnalyticsRoutes {
  import opened Common
  import opened Models
  import opened Http
  import opened AuthMiddleware
  import Ranking
  import AppointmentRoutes

  /** `limit(50)` on the recent list. */
  const RecentLimit: nat := 50

  /**
   * A request body for POST /, as the client sent it: each scalar field's
   * text before the schema casts it.
   */
  datatype AnalyticsBody = AnalyticsBody(
    timestamp: Option<string>,
    totalAppointments: Option<string>,
    collegeId: Option<string>,
    resourcesConsumed: Option<string>,
    distressedKeywords: Option<seq<string>>,
    forumPostsCount: Option<string>
  )

  /** The JSON body GET /snapshot returns. */
  datatype Snapshot = Snapshot(timestamp: Time, totalAppointments: nat, forumPostsCount: nat)

  /** Some field of the body fails its path's cast, so `save()` rejects the entry. */
  predicate CastFails(body: AnalyticsBody, castDate: DateCaster, castNumber: NumberCaster) {
    || CastOptional(castDate, body.timestamp).None?
    || CastOptional(castNumber, body.totalAppointments).None?
    || CastOptional(castNumber, body.resourcesConsumed).None?
    || CastOptional(castNumber, body.forumPostsCount).None?
  }

  /**
   * POST / (admin): `new Analytics(body)` casts every field and `save()`
   * stores the entry, or rejects it (500) when a cast failed. An absent
   * timestamp defaults to now, absent keywords to [].
   */
  function Log(db: Db, cred: Credentials, body: AnalyticsBody, castDate: DateCaster, castNumber: NumberCaster,
               newId: Id, now: Time): (r: Outcome<Stored<AnalyticsEntry>, Db>)
    requires newId !in db.analytics
    ensures var g := Gate(cred, db.users, true);
      && (g.Rejected? ==> r.reply == Fail(g.status, g.message) && r.state == db)
      && (g.Authenticated? && CastFails(body, castDate, castNumber) ==>
            r.reply.Fail? && r.reply.status == StatusServerError && r.state == db)
      && (r.reply.Json? <==> g.Authenticated? && !CastFails(body, castDate, castNumber))
    ensures r.reply.Json? ==>
      && r.reply.status == StatusCreated
      && r.reply.value.id == newId
      && var e := r.reply.value.doc;
      && r.state == db.(analytics := db.analytics[newId := e])
      && (body.timestamp.None? ==> e.timestamp == Some(now))
      && (body.timestamp.Some? ==> CastOptional(castDate, body.timestamp) == Some(e.timestamp))
      && CastOptional(castNumber, body.totalAppointments) == Some(e.totalAppointments)
      && CastOptional(castNumber, body.resourcesConsumed) == Some(e.resourcesConsumed)
      && CastOptional(castNumber, body.forumPostsCount) == Some(e.forumPostsCount)
      && e.collegeId == body.collegeId
      && e.distressedKeywords == body.distressedKeywords.GetOr([])
  {
    match Gate(cred, db.users, true)
    case Rejected(s, m) => Outcome(Fail(s, m), db)
    case Authenticated(_) =>
      var stamp := if body.timestamp.None? then Some(Some(now)) else CastOptional(castDate, body.timestamp);
      var total := CastOptional(castNumber, body.totalAppointments);
      var used := CastOptional(castNumber, body.resourcesConsumed);
      var posts := CastOptional(castNumber, body.forumPostsCount);
      if stamp.None? || total.None? || used.None? || posts.None? then
        Outcome(Fail(StatusServerError, "Analytics validation failed"), db)
      else
        var e := AnalyticsEntry(stamp.value, total.value, body.collegeId, used.value,
                                body.distressedKeywords.GetOr([]), posts.value);
        Outcome(Json(StatusCreated, Stored(newId, e)), db.(analytics := db.analytics[newId := e]))
  }

  /**
   * GET /snapshot (admin): the current numbers of appointments and forum
   * posts, also appended as exactly one new entry.
   */
  function TakeSnapshot(db: Db, cred: Credentials, newId: Id, now: Time): (r: Outcome<Snapshot, Db>)
    requires newId !in db.analytics
    ensures var g := Gate(cred, db.users, true);
      && (g.Rejected? ==> r.reply == Fail(g.status, g.message) && r.state == db)
      && (g.Authenticated? <==> r.reply.Json?)
    ensures r.reply.Json? ==>
      && r.reply.status == StatusOk
      && r.reply.value == Snapshot(now, |db.appointments|, |db.posts|)
      && r.state.analytics.Keys == db.analytics.Keys + {newId}
      && |r.state.analytics| == |db.analytics| + 1
      && r.state == db.(analytics := db.analytics[newId := AnalyticsEntry(Some(now), Some(|db.appointments|), None, None, [], Some(|db.posts|))])
  {
    match Gate(cred, db.users, true)
    case Rejected(s, m) => Outcome(Fail(s, m), db)
    case Authenticated(_) =>
      var snap := Snapshot(now, |db.appointments|, |db.posts|);
      var e := AnalyticsEntry(Some(now), Some(snap.totalAppointments), None, None, [], Some(snap.forumPostsCount));
      Outcome(Json(StatusOk, snap), db.(analytics := db.analytics[newId := e]))
  }

  /**
   * `a` comes no later than `b` under `sort({ timestamp: -1 })`: MongoDB
   * orders `null` below every date, so a null timestamp comes last.
   */
  predicate NoOlder(a: Option<Time>, b: Option<Time>) {
    b.None? || (a.Some? && a.value >= b.value)
  }

  /** A number that orders timestamps as MongoDB does, `null` lowest. */
  function SortKey(t: Option<Time>): nat {
    if t.None? then 0 else t.value + 1
  }

  /** A larger key never comes later. */
  lemma KeyOrdersTimestamps(a: Option<Time>, b: Option<Time>)
    requires SortKey(a) >= SortKey(b)
    ensures NoOlder(a, b)
  {
  }

  /** The `limit` newest entries of `entries`, newest first and null timestamps last. */
  method NewestEntries(entries: map<Id, AnalyticsEntry>, limit: nat) returns (docs: seq<Stored<AnalyticsEntry>>)
    ensures |docs| == (if |entries| < limit then |entries| else limit)
    ensures forall i :: 0 <= i < |docs| ==> docs[i].id in entries && docs[i].doc == entries[docs[i].id]
    ensures forall i, j :: 0 <= i < j < |docs| ==> docs[i].id != docs[j].id
    ensures forall i, j :: 0 <= i < j < |docs| ==> NoOlder(docs[i].doc.timestamp, docs[j].doc.timestamp)
    ensures forall id, i :: id in entries && 0 <= i < |docs| && (forall k :: 0 <= k < |docs| ==> docs[k].id != id) ==>
              NoOlder(docs[i].doc.timestamp, entries[id].timestamp)
  {
    var stamps := map id | id in entries :: SortKey(entries[id].timestamp);
    assert stamps.Keys == entries.Keys;
    var ids := Ranking.TopNewest(stamps, limit);
    docs := seq(|ids|, i requires 0 <= i < |ids| && ids[i] in entries => Stored(ids[i], entries[ids[i]]));
    assert forall k :: 0 <= k < |ids| ==> docs[k] == Stored(ids[k], entries[ids[k]]);
    forall i, j | 0 <= i < j < |docs|
      ensures NoOlder(docs[i].doc.timestamp, docs[j].doc.timestamp)
    {
      KeyOrdersTimestamps(entries[ids[i]].timestamp, entries[ids[j]].timestamp);
    }
    forall id, i | id in entries && 0 <= i < |docs| && (forall k :: 0 <= k < |docs| ==> docs[k].id != id)
      ensures NoOlder(docs[i].doc.timestamp, entries[id].timestamp)
    {
      assert id !in ids;
      KeyOrdersTimestamps(entries[ids[i]].timestamp, entries[id].timestamp);
    }
  }

  /** GET / (admin): at most 50 entries, newest first. */
  method Recent(db: Db, cred: Credentials) returns (r: Reply<seq<Stored<AnalyticsEntry>>>)
    ensures var g := Gate(cred, db.users, true);
      && (g.Rejected? ==> r == Fail(g.status, g.message))
      && (g.Authenticated? <==> r.Json?)
    ensures r.Json? ==>
      && r.status == StatusOk
      && |r.value| == (if |db.analytics| < RecentLimit then |db.analytics| else RecentLimit)
      && (forall i :: 0 <= i < |r.value| ==>
            r.value[i].id in db.analytics && r.value[i].doc == db.analytics[r.value[i].id])
      && (forall i, j :: 0 <= i < j < |r.value| ==> r.value[i].id != r.value[j].id)
      && (forall i, j :: 0 <= i < j < |r.value| ==> NoOlder(r.value[i].doc.timestamp, r.value[j].doc.timestamp))
      && (forall id, i :: id in db.analytics && 0 <= i < |r.value| && (forall k :: 0 <= k < |r.value| ==> r.value[k].id != id) ==>
            NoOlder(r.value[i].doc.timestamp, db.analytics[id].timestamp))
  {
    match Gate(cred, db.users, true)
    case Rejected(s, m) => r := Fail(s, m);
    case Authenticated(_) =>
      var docs := NewestEntries(db.analytics, RecentLimit);
      r := Json(StatusOk, docs);
  }

  /** A successfully created appointment raises the next snapshot's appointment count by exactly one. */
  lemma CreatedAppointmentCounts(db: Db, user: Credentials, admin: Credentials, body: AppointmentRoutes.CreateBody,
                                 castDate: DateCaster, apptId: Id, now: Time, entryId: Id, later: Time)
    requires apptId !in db.appointments && entryId !in db.analytics
    requires AppointmentRoutes.Create(db, user, body, castDate, apptId, now).reply.status == StatusCreated
    requires Gate(admin, db.users, true).Authenticated?
    ensures var after := AppointmentRoutes.Create(db, user, body, castDate, apptId, now).state;
      && TakeSnapshot(after, admin, entryId, later).reply.Json?
      && TakeSnapshot(after, admin, entryId, later).reply.value.totalAppointments
           == TakeSnapshot(db, admin, entryId, later).reply.value.totalAppointments + 1
      && TakeSnapshot(after, admin, entryId, later).reply.value.forumPostsCount
           == TakeSnapshot(db, admin, entryId, later).reply.value.forumPostsCount
  {
    var created := AppointmentRoutes.Create(db, user, body, castDate, apptId, now);
    var after := created.state;
    assert after == db.(appointments := db.appointments[apptId := created.reply.value.doc]);
    assert after.appointments.Keys == db.appointments.Keys + {apptId};
    assert |after.appointments| == |db.appointments| + 1;
  }

  /**
   * Logged entries are not activity: a snapshot taken after logging counts
   * the same appointments and posts as one taken before.
   */
  lemma LoggingLeavesSnapshotCounts(db: Db, admin: Credentials, body: AnalyticsBody, castDate: DateCaster, castNumber: NumberCaster,
                                    logId: Id, entryId: Id, now: Time, later: Time)
    requires logId !in db.analytics && entryId !in db.analytics && entryId != logId
    requires Gate(admin, db.users, true).Authenticated?
    ensures var after := Log(db, admin, body, castDate, castNumber, logId, now).state;
      && TakeSnapshot(after, admin, entryId, later).reply == TakeSnapshot(db, admin, entryId, later).reply
      && (!CastFails(body, castDate, castNumber) <==> logId in TakeSnapshot(after, admin, entryId, later).state.analytics)
  {
  }
}
