/**
 * The pure logic of Frontend/src/pages/Appointments.tsx: the counsellor
 * search, the initials shown on each card, the booking request, the local
 * list updates after booking and cancelling, and the status display.
 *
 * Browser facilities are inputs: `localStorage` values, the `confirm`
 * answer, and the outcome of each request.
 */
module AppointmentsPage {
  import opened Common
  import opened Http
  import Models
  import AuthMiddleware
  import AppointmentRoutes

  /** A counsellor as the page receives it. */
  datatype CounsellorCard = CounsellorCard(
    id: string,
    name: Option<string>,
    title: Option<string>,
    specialty: Option<string>,
    rating: Option<int>
  )

  /** An appointment as the page holds it. */
  datatype ApptView = ApptView(
    id: string,
    collegeName: Option<string>,
    scheduledAt: string,
    counsellorId: string,
    status: Option<string>,
    notes: Option<string>
  )

  // ---------------------------------------------------------------------
  // Search

  /** The search predicate: name or specialty (absent = "") contains the term, ignoring case. */
  predicate MatchesSearch(c: CounsellorCard, term: string) {
    || Contains(Lower(c.name.GetOr("")), Lower(term))
    || Contains(Lower(c.specialty.GetOr("")), Lower(term))
  }

  /** `filteredCounsellors`: an order-preserving selection of the matching counsellors. */
  function FilterCounsellors(cs: seq<CounsellorCard>, term: string): (r: seq<CounsellorCard>)
    ensures |r| <= |cs|
    ensures forall i :: 0 <= i < |r| ==> r[i] in cs && MatchesSearch(r[i], term)
    ensures forall i :: 0 <= i < |cs| && MatchesSearch(cs[i], term) ==> cs[i] in r
  {
    Filter((c: CounsellorCard) => MatchesSearch(c, term), cs)
  }

  /** The search keeps relative order: it distributes over concatenation. */
  lemma SearchKeepsOrder(a: seq<CounsellorCard>, b: seq<CounsellorCard>, term: string)
    ensures FilterCounsellors(a + b, term) == FilterCounsellors(a, term) + FilterCounsellors(b, term)
  {
    FilterConcat((c: CounsellorCard) => MatchesSearch(c, term), a, b);
  }

  /** An empty search term keeps every counsellor, in order. */
  lemma EmptySearchKeepsAll(cs: seq<CounsellorCard>)
    ensures FilterCounsellors(cs, "") == cs
  {
    forall i | 0 <= i < |cs| ensures MatchesSearch(cs[i], "") {
      ContainsEmpty(Lower(cs[i].name.GetOr("")));
    }
    FilterKeepsAll((c: CounsellorCard) => MatchesSearch(c, ""), cs);
  }

  // ---------------------------------------------------------------------
  // Initials

  /** A word with at least one character; `split(" ")` yields empty words between repeated spaces. */
  predicate NonEmptyWord(w: string) {
    w != ""
  }

  /**
   * `.map((s) => s[0]).join("")`: the first character of each non-empty
   * word, in order (`s[0]` of an empty word is `undefined`, which `join`
   * renders as nothing).
   */
  function FirstLetters(words: seq<string>): (r: string)
    ensures |r| <= |words|
    ensures |r| == |Filter(NonEmptyWord, words)|
    ensures forall i :: 0 <= i < |r| ==> r[i] == Filter(NonEmptyWord, words)[i][0]
    decreases |words|
  {
    if words == [] then ""
    else (if words[0] == "" then "" else [words[0][0]]) + FirstLetters(words[1..])
  }

  /**
   * The avatar text: the upper-cased first letters of the first two words
   * of the name, or "?" when the name is missing or empty.
   */
  function Initials(name: Option<string>): (r: string)
    ensures |r| <= 2
    ensures !Filled(name) ==> r == "?"
    ensures forall i :: 0 <= i < |r| ==> !('a' <= r[i] <= 'z')
  {
    SplitFree("??", ' ');
    var letters := FirstLetters(Split(OrElse(name, "??"), ' '));
    Upper(if |letters| <= 2 then letters else letters[..2])
  }

  /** A one-word name gives its upper-cased first letter. */
  lemma InitialsOfOneWord(w: string)
    requires w != "" && ' ' !in w
    ensures Initials(Some(w)) == Upper([w[0]])
  {
    SplitFree(w, ' ');
  }

  /** Two leading non-empty words contribute the first two letters. */
  lemma FirstTwoLetters(words: seq<string>)
    requires |words| >= 2 && words[0] != "" && words[1] != ""
    ensures |FirstLetters(words)| >= 2
    ensures FirstLetters(words)[..2] == [words[0][0], words[1][0]]
  {
    var rest := FirstLetters(words[2..]);
    assert words[1..][1..] == words[2..];
    assert FirstLetters(words[1..]) == [words[1][0]] + rest;
    assert FirstLetters(words) == [words[0][0], words[1][0]] + rest;
  }

  /** A name of two or more words gives the upper-cased first letters of the first two. */
  lemma InitialsOfSeveralWords(words: seq<string>)
    requires |words| >= 2
    requires forall i :: 0 <= i < |words| ==> words[i] != "" && ' ' !in words[i]
    ensures Initials(Some(Join(words, ' '))) == Upper([words[0][0], words[1][0]])
  {
    var s := Join(words, ' ');
    SplitJoin(words, ' ');
    assert s == words[0] + [' '] + Join(words[1..], ' ');
    assert OrElse(Some(s), "??") == s;
    FirstTwoLetters(words);
    var letters := FirstLetters(words);
    assert (if |letters| <= 2 then letters else letters[..2]) == [words[0][0], words[1][0]];
  }

  // ---------------------------------------------------------------------
  // Booking

  datatype Mode = Video | Phone | InPerson

  function ModeName(m: Mode): string {
    match m
    case Video => "video"
    case Phone => "phone"
    case InPerson => "in-person"
  }

  /** The booking widget's state. */
  datatype BookingForm = BookingForm(bookingFor: Option<string>, dateTime: string, mode: Mode, notes: string)

  /** The body POSTed to /appointments. */
  datatype BookingPayload = BookingPayload(collegeName: string, scheduledAt: string, counsellorId: string, notes: string)

  /** What `confirmBooking` does: nothing, an alert, or one request. */
  datatype BookingStep = Idle | AskForDate | Send(payload: BookingPayload)

  /** The college used when `localStorage` holds none. */
  const DefaultCollege := "MyCollege"

  /**
   * `confirmBooking`. `storedCollege` is `localStorage.getItem("collegeName")`;
   * `toIso` is `new Date(v).toISOString()`, `None` where it throws.
   */
  function ConfirmBooking(form: BookingForm, storedCollege: Option<string>, toIso: string -> Option<string>): (r: BookingStep)
    ensures !Filled(form.bookingFor) ==> r == Idle
    ensures Filled(form.bookingFor) && form.dateTime == "" ==> r == AskForDate
    ensures r.Send? <==> Filled(form.bookingFor) && form.dateTime != ""
    ensures r.Send? ==>
      && r.payload.counsellorId == form.bookingFor.value
      && r.payload.collegeName == (if Filled(storedCollege) then storedCollege.value else DefaultCollege)
      && r.payload.notes == (if form.notes != "" then form.notes else "Mode: " + ModeName(form.mode))
      && r.payload.scheduledAt == toIso(form.dateTime).GetOr(form.dateTime)
  {
    if !Filled(form.bookingFor) then Idle
    else if form.dateTime == "" then AskForDate
    else
      var iso := toIso(form.dateTime).GetOr(form.dateTime);
      var notes := if form.notes != "" then form.notes else "Mode: " + ModeName(form.mode);
      Send(BookingPayload(OrElse(storedCollege, DefaultCollege), iso, form.bookingFor.value, notes))
  }

  /** After the POST: the returned appointment is appended; on failure the list stays. */
  function AfterBooking(list: seq<ApptView>, created: Option<ApptView>): (r: seq<ApptView>)
    ensures created.None? ==> r == list
    ensures created.Some? ==> |r| == |list| + 1 && r[..|list|] == list && r[|list|] == created.value
  {
    match created
    case None => list
    case Some(a) => list + [a]
  }

  // ---------------------------------------------------------------------
  // Cancelling and status display

  const CancelledStatus := "cancelled"

  /** The local update after a successful DELETE: only entries with that id change. */
  function MarkCancelled(list: seq<ApptView>, id: string): (r: seq<ApptView>)
    ensures |r| == |list|
    ensures forall i :: 0 <= i < |list| && list[i].id == id ==> r[i] == list[i].(status := Some(CancelledStatus))
    ensures forall i :: 0 <= i < |list| && list[i].id != id ==> r[i] == list[i]
  {
    seq(|list|, i requires 0 <= i < |list| =>
      if list[i].id == id then list[i].(status := Some(CancelledStatus)) else list[i])
  }

  /**
   * `handleCancel`: the list changes only when the user confirmed and the
   * request succeeded.
   */
  function HandleCancel(list: seq<ApptView>, id: string, confirmed: bool, requestSucceeded: bool): (r: seq<ApptView>)
    ensures !(confirmed && requestSucceeded) ==> r == list
    ensures confirmed && requestSucceeded ==> r == MarkCancelled(list, id)
  {
    if !confirmed || !requestSucceeded then list else MarkCancelled(list, id)
  }

  /** The status text: a missing status reads "scheduled". */
  function StatusLabel(status: Option<string>): (s: string)
    ensures status.None? ==> s == "scheduled"
    ensures status.Some? ==> s == status.value
  {
    status.GetOr("scheduled")
  }

  /** The Cancel button is offered unless the status is "cancelled". */
  function ShowCancelButton(status: Option<string>): (b: bool)
    ensures b <==> StatusLabel(status) != CancelledStatus
  {
    status != Some(CancelledStatus)
  }

  /**
   * After a local cancel no entry with that id offers Cancel any more, all
   * other entries look as before, and cancelling again changes nothing.
   */
  lemma MarkCancelledHidesButton(list: seq<ApptView>, id: string)
    ensures forall i :: 0 <= i < |list| && list[i].id == id ==> !ShowCancelButton(MarkCancelled(list, id)[i].status)
    ensures forall i :: 0 <= i < |list| && list[i].id != id ==>
      ShowCancelButton(MarkCancelled(list, id)[i].status) == ShowCancelButton(list[i].status)
    ensures MarkCancelled(MarkCancelled(list, id), id) == MarkCancelled(list, id)
  {
  }

  // ---------------------------------------------------------------------
  // The page against the backend and across its own updates

  /**
   * A booking the page sends never trips the backend's "Missing fields"
   * check: the college falls back to "MyCollege" and the date is the
   * non-empty ISO text or the non-empty raw input. It is created whenever
   * the caller is signed in and the date casts.
   */
  lemma BookingPassesCreateCheck(form: BookingForm, storedCollege: Option<string>, toIso: string -> Option<string>,
                                 db: Models.Db, cred: AuthMiddleware.Credentials, counsellor: Option<Models.Id>,
                                 castDate: Models.DateCaster, newId: Models.Id, now: Models.Time)
    requires ConfirmBooking(form, storedCollege, toIso).Send?
    requires toIso(form.dateTime).None? || toIso(form.dateTime).value != ""
    requires newId !in db.appointments
    ensures var p := ConfirmBooking(form, storedCollege, toIso).payload;
      var r := AppointmentRoutes.Create(db, cred, AppointmentRoutes.CreateBody(Some(p.collegeName), Some(p.scheduledAt), counsellor, Some(p.notes), None),
                                        castDate, newId, now);
      && r.reply.status != StatusBadRequest
      && (AuthMiddleware.Gate(cred, db.users, false).Authenticated? && castDate(p.scheduledAt).Some? ==> r.reply.status == StatusCreated)
  {
  }

  /** After a confirmed, successful cancel no entry with that id offers Cancel. */
  lemma ConfirmedCancelHidesButton(list: seq<ApptView>, id: string, confirmed: bool, requestSucceeded: bool)
    ensures var r := HandleCancel(list, id, confirmed, requestSucceeded);
      && |r| == |list|
      && (confirmed && requestSucceeded ==> forall i :: 0 <= i < |r| && r[i].id == id ==> !ShowCancelButton(r[i].status))
      && (forall i :: 0 <= i < |r| && list[i].id != id ==> r[i] == list[i])
  {
  }

  /**
   * Booking and then cancelling the new appointment: the list grows by that
   * one entry, which no longer offers Cancel, and entries with other ids are
   * as they were.
   */
  lemma BookThenCancel(list: seq<ApptView>, created: ApptView)
    ensures var r := HandleCancel(AfterBooking(list, Some(created)), created.id, true, true);
      && |r| == |list| + 1
      && !ShowCancelButton(r[|list|].status)
      && r[|list|] == created.(status := Some(CancelledStatus))
      && (forall i :: 0 <= i < |list| && list[i].id != created.id ==> r[i] == list[i])
  {
    var booked := AfterBooking(list, Some(created));
    assert forall i :: 0 <= i < |list| ==> booked[i] == list[i];
  }
}
