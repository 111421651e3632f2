/**
 The decision logic of the founder dashboard (src/pages/Dashboard.tsx): how
 the "Post New Idea" form becomes the row that is inserted, which amount
 inputs the form shows, what happens to the form after the insert, and when
 the founder's own ideas are fetched.
 */
module Dashboard {

  import opened Types
  import opened Seqs
  import opened Text
  import IdeaList

  /** The form state `newIdea`: every input as the text it holds. */
  datatype IdeaForm = IdeaForm(
    title: string,
    description: string,
    required_skills: string,
    compensation_type: CompensationType,
    equity_percentage: string,
    monetary_compensation: string,
    terms_and_conditions: string,
    has_nda: bool)

  /** The form's initial state, also the state it is reset to. */
  const InitialForm := IdeaForm("", "", "", Equity, "", "", "", false)

  /** The object `handleSubmitIdea` hands to the insert. */
  datatype IdeaPayload = IdeaPayload(
    founder_id: Option<string>,
    title: string,
    description: string,
    required_skills: seq<string>,
    compensation_type: CompensationType,
    equity_percentage: Option<Amount>,
    monetary_compensation: Option<Amount>,
    terms_and_conditions: string,
    has_nda: bool)

  // ---------------------------------------------------------------------
  // Building the payload
  // ---------------------------------------------------------------------

  /**
   `text.split(',').map(skill => skill.trim())`: one entry per comma-separated
   segment, in input order, each the trimmed segment, so no entry has
   whitespace at either edge or contains a comma.
   */
  function SkillList(text: string): (r: seq<string>)
    ensures |r| == CountChar(text, ',') + 1
    ensures forall k :: 0 <= k < |r| ==> r[k] == Trim(Split(text, ',')[k])
    ensures forall k :: 0 <= k < |r| ==> NoEdgeSpace(r[k]) && ',' !in r[k]
  {
    var parts := Split(text, ',');
    seq(|parts|, k requires 0 <= k < |parts| => Trim(parts[k]))
  }

  /** When no segment has whitespace at its edges, joining the list gives the text back. */
  lemma SkillListJoin(text: string)
    requires forall k :: 0 <= k < |Split(text, ',')| ==> NoEdgeSpace(Split(text, ',')[k])
    ensures Join(SkillList(text), ',') == text
  {
    var parts := Split(text, ',');
    forall k | 0 <= k < |parts|
      ensures SkillList(text)[k] == parts[k]
    {
      TrimNoEdgeSpace(parts[k]);
    }
    assert SkillList(text) == parts;
    JoinSplit(text, ',');
  }

  /** Re-entering the joined list yields the same list: the split is stable. */
  lemma SkillListStable(text: string)
    ensures SkillList(Join(SkillList(text), ',')) == SkillList(text)
  {
    var list := SkillList(text);
    SplitJoin(list, ',');
    forall k | 0 <= k < |list|
      ensures Trim(list[k]) == list[k]
    {
      TrimNoEdgeSpace(list[k]);
    }
  }

  /**
   `text ? parseFloat(text) : null`: an empty input gives no amount, any other
   input gives the amount read from it.
   */
  function OptionalAmount(text: string): (r: Option<Amount>)
    ensures r.None? <==> text == ""
    ensures r.Some? ==> r.value.text == text
  {
    if text == "" then None else Some(Amount(text))
  }

  /** `ideaData` in `handleSubmitIdea`. */
  function BuildPayload(user: Option<User>, form: IdeaForm): (p: IdeaPayload)
    ensures p.founder_id.Some? <==> user.Some?
    ensures user.Some? ==> p.founder_id.value == user.value.id
    ensures p.title == form.title && p.description == form.description
    ensures p.terms_and_conditions == form.terms_and_conditions && p.has_nda == form.has_nda
    ensures p.compensation_type == form.compensation_type
    ensures p.required_skills == SkillList(form.required_skills)
    ensures p.equity_percentage.None? <==> form.equity_percentage == ""
    ensures p.monetary_compensation.None? <==> form.monetary_compensation == ""
  {
    IdeaPayload(
      if user.Some? then Some(user.value.id) else None,
      form.title,
      form.description,
      SkillList(form.required_skills),
      form.compensation_type,
      OptionalAmount(form.equity_percentage),
      OptionalAmount(form.monetary_compensation),
      form.terms_and_conditions,
      form.has_nda)
  }

  /**
   The amounts are read from the form whatever the compensation type: an
   amount typed before switching to a type that hides its input is still sent.
   */
  lemma AmountsIgnoreType(user: Option<User>, form: IdeaForm, ct: CompensationType)
    ensures BuildPayload(user, form.(compensation_type := ct)).equity_percentage == BuildPayload(user, form).equity_percentage
    ensures BuildPayload(user, form.(compensation_type := ct)).monetary_compensation == BuildPayload(user, form).monetary_compensation
  {
  }

  // ---------------------------------------------------------------------
  // Which inputs the form shows, and the browser's `required` check
  // ---------------------------------------------------------------------

  predicate ShowEquityInput(ct: CompensationType)
  {
    ct == Equity || ct == Both
  }

  predicate ShowMonetaryInput(ct: CompensationType)
  {
    ct == Monetary || ct == Both
  }

  /**
   The form asks for exactly the amounts an idea of that type shows on its
   listing card, and always asks for at least one.
   */
  lemma InputsMatchListing(idea: StartupIdea)
    ensures ShowEquityInput(idea.compensation_type) <==> IdeaList.CardShowsEquity(IdeaList.CardLabel(idea))
    ensures ShowMonetaryInput(idea.compensation_type) <==> IdeaList.CardShowsMonthly(IdeaList.CardLabel(idea))
    ensures ShowEquityInput(idea.compensation_type) || ShowMonetaryInput(idea.compensation_type)
  {
  }

  /**
   The browser refuses to submit while a shown input marked `required` is
   empty: title, description, skills, and the amount inputs on display.
   */
  predicate PassesRequired(form: IdeaForm)
  {
    && form.title != ""
    && form.description != ""
    && form.required_skills != ""
    && (ShowEquityInput(form.compensation_type) ==> form.equity_percentage != "")
    && (ShowMonetaryInput(form.compensation_type) ==> form.monetary_compensation != "")
  }

  /**
   A submitted form carries every amount its compensation type calls for; the
   invariant holds only because of the input-time check.
   */
  lemma SubmittedAmountsPresent(user: Option<User>, form: IdeaForm)
    requires PassesRequired(form)
    ensures ShowEquityInput(form.compensation_type) ==> BuildPayload(user, form).equity_percentage.Some?
    ensures ShowMonetaryInput(form.compensation_type) ==> BuildPayload(user, form).monetary_compensation.Some?
  {
  }

  /** The initial form cannot be submitted as it is. */
  lemma InitialFormBlocked()
    ensures !PassesRequired(InitialForm)
  {
  }

  // ---------------------------------------------------------------------
  // After the insert
  // ---------------------------------------------------------------------

  /** The page state a submission touches. */
  datatype DashboardState = DashboardState(form: IdeaForm, modalOpen: bool)

  /** The state after the insert, and whether the founder's ideas are fetched again. */
  datatype SubmitOutcome = SubmitOutcome(state: DashboardState, refetch: bool)

  /**
   On success the modal closes, the ideas are fetched again and the form is
   back in its initial state; on error only a log line is written.
   */
  function AfterSubmit(st: DashboardState, insertSucceeded: bool): (r: SubmitOutcome)
    ensures insertSucceeded ==> r.state.form == InitialForm && !r.state.modalOpen && r.refetch
    ensures !insertSucceeded ==> r.state == st && !r.refetch
  {
    if insertSucceeded then SubmitOutcome(DashboardState(InitialForm, false), true)
    else SubmitOutcome(st, false)
  }

  /** After a successful post a second submit is blocked until the form is filled in again. */
  lemma ResetFormBlocked(st: DashboardState)
    ensures !PassesRequired(AfterSubmit(st, true).state.form)
  {
    InitialFormBlocked();
  }

  // ---------------------------------------------------------------------
  // The founder's own ideas
  // ---------------------------------------------------------------------

  /**
   The ideas listed under "Your Ideas": fetched only for a founder, and then
   exactly the stored ideas that founder owns, in store order.
   */
  function FounderIdeas(user: Option<User>, store: seq<StartupIdea>): (r: Option<seq<StartupIdea>>)
    ensures r.Some? <==> IsFounder(user)
    ensures r.Some? ==> forall idea :: idea in r.value <==> idea in store && idea.founder_id == user.value.id
  {
    if IsFounder(user) then Some(Filter(store, (idea: StartupIdea) => idea.founder_id == user.value.id)) else None
  }

  /**
   A founder's ideas over a store made of two parts are that founder's ideas
   of the first part followed by those of the second: store order is kept.
   */
  lemma FounderIdeasAppend(user: Option<User>, store: seq<StartupIdea>, more: seq<StartupIdea>)
    requires IsFounder(user)
    ensures FounderIdeas(user, store + more).value == FounderIdeas(user, store).value + FounderIdeas(user, more).value
  {
    FilterAppend(store, more, (idea: StartupIdea) => idea.founder_id == user.value.id);
  }

  /** The "Post New Idea" button is offered only to founders. */
  predicate PostButtonShown(user: Option<User>)
  {
    IsFounder(user)
  }

  /**
   The posting button is shown exactly when the page fetches the viewer's own
   ideas, so a developer can neither post nor see a founder's list.
   */
  lemma PostButtonIffOwnIdeas(user: Option<User>, store: seq<StartupIdea>)
    ensures PostButtonShown(user) <==> FounderIdeas(user, store).Some?
    ensures user.Some? && user.value.user_type == Developer ==> !PostButtonShown(user) && FounderIdeas(user, store).None?
  {
  }
}
