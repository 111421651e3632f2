/**
 The decision logic of the application review page
 (src/pages/Applications.tsx): which rows each role sees, the status update
 behind Approve and Reject, the buttons and contact details each row shows,
 the status badge and label, and the WhatsApp link.

 The store is a sequence of rows passed in; the query and the update are
 stated as functions over it.
 */
module Applications {

  import opened Types
  import opened Seqs
  import opened Text

  /**
   An application row as the page fetches it, with its idea embedded through
   `startup_ideas (*)` and its developer through `users:developer_id(*)`.
   */
  datatype ApplicationRow = ApplicationRow(app: Application, idea: StartupIdea, developer: Option<User>)

  // ---------------------------------------------------------------------
  // Which rows each role sees
  // ---------------------------------------------------------------------

  /**
   The row filter of the query: a founder sees applications to the ideas they
   own, a developer sees their own applications.
   */
  predicate VisibleTo(viewer: User, row: ApplicationRow)
  {
    match viewer.user_type
    case Founder => row.idea.founder_id == viewer.id
    case Developer => row.app.developer_id == viewer.id
  }

  function FetchApplications(viewer: User, rows: seq<ApplicationRow>): seq<ApplicationRow>
  {
    Filter(rows, (row: ApplicationRow) => VisibleTo(viewer, row))
  }

  /**
   A founder's query returns exactly the rows whose idea they own, a
   developer's exactly the rows they submitted, both in store order.
   */
  lemma FetchApplicationsSpec(viewer: User, rows: seq<ApplicationRow>, more: seq<ApplicationRow>)
    ensures viewer.user_type == Founder ==> forall row :: row in FetchApplications(viewer, rows) <==>
      row in rows && row.idea.founder_id == viewer.id
    ensures viewer.user_type == Developer ==> forall row :: row in FetchApplications(viewer, rows) <==>
      row in rows && row.app.developer_id == viewer.id
    ensures FetchApplications(viewer, rows + more) == FetchApplications(viewer, rows) + FetchApplications(viewer, more)
  {
    FilterAppend(rows, more, (row: ApplicationRow) => VisibleTo(viewer, row));
  }

  // ---------------------------------------------------------------------
  // Approve and reject
  // ---------------------------------------------------------------------

  /** The two actions a founder can take. */
  datatype Decision = Approve | Reject

  function DecisionStatus(d: Decision): (s: Status)
    ensures s != Pending
  {
    match d
    case Approve => Approved
    case Reject => Rejected
  }

  /**
   `handleApplicationAction(id, action)`: `update({ status: action })` on the
   rows with that id. Those rows get the new status and keep every other
   field; every other row is untouched. The current status is not consulted.
   */
  function SetStatus(store: seq<Application>, id: string, d: Decision): (r: seq<Application>)
    ensures |r| == |store|
    ensures forall k :: 0 <= k < |store| && store[k].id == id ==>
      r[k].status == DecisionStatus(d) && r[k] == store[k].(status := r[k].status)
    ensures forall k :: 0 <= k < |store| && store[k].id != id ==> r[k] == store[k]
  {
    if |store| == 0 then
      []
    else
      var head := if store[0].id == id then store[0].(status := DecisionStatus(d)) else store[0];
      [head] + SetStatus(store[1..], id, d)
  }

  /** Repeating the same action (a double click) changes nothing more. */
  lemma SetStatusIdempotent(store: seq<Application>, id: string, d: Decision)
    ensures SetStatus(SetStatus(store, id, d), id, d) == SetStatus(store, id, d)
  {
  }

  /** The last of two actions on a row wins, whatever its current status. */
  lemma SetStatusLastWins(store: seq<Application>, id: string, first: Decision, second: Decision)
    ensures SetStatus(SetStatus(store, id, first), id, second) == SetStatus(store, id, second)
  {
  }

  /** With unique ids, exactly the one row with the given id changes status. */
  lemma SetStatusSingleRow(store: seq<Application>, k: nat, d: Decision)
    requires k < |store|
    requires forall i, j :: 0 <= i < j < |store| ==> store[i].id != store[j].id
    ensures SetStatus(store, store[k].id, d)[k] == store[k].(status := DecisionStatus(d))
    ensures forall i :: 0 <= i < |store| && i != k ==> SetStatus(store, store[k].id, d)[i] == store[i]
  {
    assert forall i :: 0 <= i < |store| && i != k ==> store[i].id != store[k].id;
  }

  // ---------------------------------------------------------------------
  // What each row shows
  // ---------------------------------------------------------------------

  /** Approve and Reject are offered only to a founder, and only on a pending row. */
  predicate ActionsOffered(viewer: Option<User>, app: Application)
  {
    IsFounder(viewer) && app.status == Pending
  }

  /**
   Through the buttons, status moves only from pending to approved or to
   rejected, and after that no button is offered again: both outcomes are
   final.
   */
  lemma OfferedTransitions(viewer: Option<User>, store: seq<Application>, k: nat, d: Decision)
    requires k < |store| && ActionsOffered(viewer, store[k])
    ensures store[k].status == Pending
    ensures SetStatus(store, store[k].id, d)[k].status in {Approved, Rejected}
    ensures !ActionsOffered(viewer, SetStatus(store, store[k].id, d)[k])
  {
  }

  /** `text && …`: an optional text is displayed only when present and non-empty. */
  function ShownText(t: Option<string>): (r: Option<string>)
    ensures r.Some? <==> t.Some? && t.value != ""
    ensures r.Some? ==> r == t
  {
    if t.Some? && t.value != "" then t else None
  }

  /**
   The applicant block of a row: the developer's name, the id the "View
   Details" button opens, and the expertise and note lines when they have
   text.
   */
  datatype ApplicantBlock = ApplicantBlock(name: string, detailsFor: string, expertise: Option<string>, note: Option<string>)

  /**
   The applicant block is shown to a founder on a row whose developer was
   embedded, and to nobody else; it shows that developer and the row's own
   note.
   */
  function Applicant(viewer: Option<User>, row: ApplicationRow): (r: Option<ApplicantBlock>)
    ensures r.Some? <==> IsFounder(viewer) && row.developer.Some?
    ensures r.Some? ==> r.value.name == row.developer.value.full_name && r.value.detailsFor == row.developer.value.id
    ensures r.Some? ==> r.value.expertise == ShownText(row.developer.value.expertise)
    ensures r.Some? ==> r.value.note == ShownText(row.app.note)
  {
    if IsFounder(viewer) && row.developer.Some? then
      var dev := row.developer.value;
      Some(ApplicantBlock(dev.full_name, dev.id, ShownText(dev.expertise), ShownText(row.app.note)))
    else
      None
  }

  /**
   A developer never sees an applicant block, not even on their own
   application, and an empty note is never displayed.
   */
  lemma ApplicantOnlyForFounders(viewer: Option<User>, row: ApplicationRow)
    ensures viewer.Some? && viewer.value.user_type == Developer ==> Applicant(viewer, row).None?
    ensures Applicant(viewer, row).Some? && Applicant(viewer, row).value.note.Some? ==>
      row.app.note.Some? && row.app.note.value != ""
  {
  }

  /** The contact block appears on approved applications only. */
  predicate ContactShown(app: Application)
  {
    app.status == Approved
  }

  /** `whatsapp_number &&`: absent and empty numbers are both falsy. */
  predicate HasNumber(developer: Option<User>)
  {
    developer.Some? && ShownText(developer.value.whatsapp_number).Some?
  }

  /** The WhatsApp link target for a number. */
  function WhatsAppUrl(number: string): string
  {
    "https://wa.me/" + Digits(number)
  }

  /**
   The WhatsApp link of a row, if shown: only in the contact block of an
   approved application, only to a founder, and only when the developer has a
   non-empty number.
   */
  function WhatsAppLink(viewer: Option<User>, row: ApplicationRow): (r: Option<string>)
    ensures r.Some? <==> ContactShown(row.app) && IsFounder(viewer) && HasNumber(row.developer)
    ensures r.Some? ==> r.value == WhatsAppUrl(row.developer.value.whatsapp_number.value)
  {
    if ContactShown(row.app) && IsFounder(viewer) && HasNumber(row.developer) then
      Some(WhatsAppUrl(row.developer.value.whatsapp_number.value))
    else
      None
  }

  /**
   The row's contact block never shows a WhatsApp link on a rejected or
   pending application, whoever views it. The developer-details modal, which
   this model leaves out, is not gated by status.
   */
  lemma NoRowLinkUnlessApproved(viewer: Option<User>, row: ApplicationRow)
    requires row.app.status != Approved
    ensures WhatsAppLink(viewer, row).None?
  {
  }

  /**
   The link's number keeps exactly the digits of the stored number, in order
   and with their multiplicities, so stripping it again changes nothing.
   */
  lemma WhatsAppNumberDigits(number: string)
    ensures AllDigits(Digits(number))
    ensures forall c :: multiset(Digits(number))[c] == (if IsDigit(c) then multiset(number)[c] else 0)
    ensures WhatsAppUrl(Digits(number)) == WhatsAppUrl(number)
  {
    DigitsSpec(number, "");
    DigitsIdempotent(number);
  }

  // ---------------------------------------------------------------------
  // Badge and label
  // ---------------------------------------------------------------------

  const GreenBadge := "bg-green-100 text-green-800"
  const RedBadge := "bg-red-100 text-red-800"
  const YellowBadge := "bg-yellow-100 text-yellow-800"

  /** `getStatusBadgeClass(status)`, on any status string. */
  function BadgeClass(status: string): (r: string)
    ensures r == GreenBadge <==> status == "approved"
    ensures r == RedBadge <==> status == "rejected"
    ensures r == YellowBadge <==> status != "approved" && status != "rejected"
  {
    if status == "approved" then GreenBadge
    else if status == "rejected" then RedBadge
    else YellowBadge
  }

  /** The badge of each stored status: pending rows are yellow. */
  lemma BadgeOfStatus(s: Status)
    ensures BadgeClass(StatusText(s)) == match s
      case Pending => YellowBadge
      case Approved => GreenBadge
      case Rejected => RedBadge
  {
  }

  /** `status.charAt(0).toUpperCase() + status.slice(1)` */
  function StatusLabel(status: string): (r: string)
    ensures |r| == |status|
    ensures |status| > 0 ==> r[0] == UpperChar(status[0]) && r[1..] == status[1..]
  {
    Capitalize(status)
  }

  /**
   The labels of the three statuses are "Pending", "Approved" and "Rejected",
   and lower-casing a label gives its status back.
   */
  lemma StatusLabels(s: Status)
    ensures StatusLabel(StatusText(s)) == match s
      case Pending => "Pending"
      case Approved => "Approved"
      case Rejected => "Rejected"
    ensures Lower(StatusLabel(StatusText(s))) == StatusText(s)
  {
    var t := StatusText(s);
    match s
    case Pending =>
      assert forall k :: 0 <= k < |t| ==> 'a' <= t[k] <= 'z';
      assert StatusLabel(t) == ['P'] + t[1..];
      LowerCapitalize(t);
    case Approved =>
      assert forall k :: 0 <= k < |t| ==> 'a' <= t[k] <= 'z';
      assert StatusLabel(t) == ['A'] + t[1..];
      LowerCapitalize(t);
    case Rejected =>
      assert forall k :: 0 <= k < |t| ==> 'a' <= t[k] <= 'z';
      assert StatusLabel(t) == ['R'] + t[1..];
      LowerCapitalize(t);
  }
}
