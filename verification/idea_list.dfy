/**
 The decision logic of the idea browser (src/pages/IdeaList.tsx): the search
 and skill filter, the skill facets, the skill toggle, the "already applied"
 check, the guard in front of the application insert, and which compensation
 figures an idea shows.

 The fetched ideas and the developer's own applications are inputs: the
 queries that produce them are not part of this model.
 */
module IdeaList {

  import opened Types
  import opened Seqs
  import opened Text

  /** An idea row with its founder embedded through `users:founder_id(*)`. */
  datatype Listing = Listing(idea: StartupIdea, founder: Option<User>)

  // ---------------------------------------------------------------------
  // The list filter
  // ---------------------------------------------------------------------

  /** Title or description contains the search term, both lower-cased. */
  predicate MatchesSearch(idea: StartupIdea, term: string)
  {
    Contains(Lower(idea.title), Lower(term)) || Contains(Lower(idea.description), Lower(term))
  }

  /** `selected.some(skill => required.includes(skill))` */
  function AnySelectedRequired(selected: seq<string>, required: seq<string>): (r: bool)
    ensures r <==> exists k :: 0 <= k < |selected| && selected[k] in required
  {
    if |selected| == 0 then false
    else selected[0] in required || AnySelectedRequired(selected[1..], required)
  }

  /** No skill is selected, or at least one selected skill is required. */
  predicate MatchesSkills(idea: StartupIdea, selected: seq<string>)
  {
    |selected| == 0 || AnySelectedRequired(selected, idea.required_skills)
  }

  predicate Matches(listing: Listing, term: string, selected: seq<string>)
  {
    MatchesSearch(listing.idea, term) && MatchesSkills(listing.idea, selected)
  }

  /** `filteredIdeas` */
  function FilterIdeas(ideas: seq<Listing>, term: string, selected: seq<string>): seq<Listing>
  {
    Filter(ideas, (l: Listing) => Matches(l, term, selected))
  }

  /**
   The filtered list holds exactly the fetched ideas that pass both the text
   search and the skill predicate, each as often as it was fetched, and in
   fetch order (filtering a concatenation filters each part in place).
   */
  lemma FilterIdeasSpec(ideas: seq<Listing>, more: seq<Listing>, term: string, selected: seq<string>)
    ensures forall l :: l in FilterIdeas(ideas, term, selected) <==>
      l in ideas && MatchesSearch(l.idea, term) && MatchesSkills(l.idea, selected)
    ensures forall l :: multiset(FilterIdeas(ideas, term, selected))[l] ==
                       (if Matches(l, term, selected) then multiset(ideas)[l] else 0)
    ensures FilterIdeas(ideas + more, term, selected) ==
      FilterIdeas(ideas, term, selected) + FilterIdeas(more, term, selected)
  {
    var p := (l: Listing) => Matches(l, term, selected);
    FilterCount(ideas, p);
    FilterAppend(ideas, more, p);
  }

  /** With an empty search term and no selected skill nothing is filtered out. */
  lemma NoFilterKeepsAll(ideas: seq<Listing>)
    ensures FilterIdeas(ideas, "", []) == ideas
  {
    forall k | 0 <= k < |ideas|
      ensures Matches(ideas[k], "", [])
    {
      ContainsEmpty(Lower(ideas[k].idea.title));
    }
    FilterKeepsAll(ideas, (l: Listing) => Matches(l, "", []));
  }

  /**
   With no skill selected, an idea is listed iff the lower-cased term occurs
   in its lower-cased title or description.
   */
  lemma SearchOnly(ideas: seq<Listing>, term: string, l: Listing)
    ensures l in FilterIdeas(ideas, term, []) <==>
      l in ideas && (Contains(Lower(l.idea.title), Lower(term)) || Contains(Lower(l.idea.description), Lower(term)))
  {
  }

  /**
   With a non-empty selection, an idea passes the skill predicate iff at
   least one selected skill is among its required skills: the selected skills
   are combined with OR.
   */
  lemma SkillsAreOred(idea: StartupIdea, selected: seq<string>)
    requires |selected| > 0
    ensures MatchesSkills(idea, selected) <==> exists s :: s in selected && s in idea.required_skills
  {
    if MatchesSkills(idea, selected) {
      var k :| 0 <= k < |selected| && selected[k] in idea.required_skills;
      assert selected[k] in selected;
    }
  }

  /** The search is case-insensitive in the term. */
  lemma SearchIgnoresCase(ideas: seq<Listing>, term: string, term': string, selected: seq<string>)
    requires EqualIgnoringCase(term, term')
    ensures FilterIdeas(ideas, term, selected) == FilterIdeas(ideas, term', selected)
  {
    LowerIgnoresCase(term, term');
    FilterSame(ideas, (l: Listing) => Matches(l, term, selected), (l: Listing) => Matches(l, term', selected));
  }

  /** In particular, typing the term in capitals changes nothing. */
  lemma UpperCaseSearch(ideas: seq<Listing>, term: string, selected: seq<string>)
    ensures FilterIdeas(ideas, Upper(term), selected) == FilterIdeas(ideas, term, selected)
  {
    UpperEqualIgnoringCase(term);
    SearchIgnoresCase(ideas, Upper(term), term, selected);
  }

  // ---------------------------------------------------------------------
  // The skill facets: `allSkills`
  // ---------------------------------------------------------------------

  /** The required skills of every idea, idea after idea. */
  function Flatten(ideas: seq<Listing>): seq<string>
  {
    if |ideas| == 0 then [] else Flatten(ideas[..|ideas| - 1]) + ideas[|ideas| - 1].idea.required_skills
  }

  /** A skill occurs in the flattened list iff some idea requires it. */
  lemma {:induction false} FlattenMembers(ideas: seq<Listing>)
    ensures forall x :: x in Flatten(ideas) <==> exists i :: 0 <= i < |ideas| && x in ideas[i].idea.required_skills
    decreases |ideas|
  {
    if |ideas| > 0 {
      var init := ideas[..|ideas| - 1];
      FlattenMembers(init);
      assert forall i :: 0 <= i < |init| ==> init[i] == ideas[i];
    }
  }

  /** Flattening one more idea appends its skills. */
  lemma FlattenPrefix(ideas: seq<Listing>, i: nat)
    requires i < |ideas|
    ensures Flatten(ideas[..i + 1]) == Flatten(ideas[..i]) + ideas[i].idea.required_skills
  {
    assert ideas[..i + 1][..i] == ideas[..i];
  }

  /**
   The skill extraction of `fetchIdeas`: every required skill is added to a
   `Set`, idea after idea and skill after skill, and the set is read back in
   insertion order. The result lists every skill of every idea once, in the
   order of its first occurrence.
   */
  method ExtractSkills(ideas: seq<Listing>) returns (skills: seq<string>)
    ensures skills == FirstOccurrences(Flatten(ideas))
    ensures NoDuplicates(skills)
    ensures forall x :: x in skills <==> x in Flatten(ideas)
  {
    var seen: set<string> := {};
    skills := [];
    for i := 0 to |ideas|
      invariant skills == FirstOccurrences(Flatten(ideas[..i]))
      invariant forall x :: x in seen <==> x in skills
    {
      var required := ideas[i].idea.required_skills;
      ghost var done := Flatten(ideas[..i]);
      FlattenPrefix(ideas, i);
      assert done + required[..0] == done;
      for j := 0 to |required|
        invariant skills == FirstOccurrences(done + required[..j])
        invariant forall x :: x in seen <==> x in skills
      {
        var skill := required[j];
        AddSkill(done, required, j);
        if skill !in seen {
          seen := seen + {skill};
          skills := skills + [skill];
        }
      }
      assert required[..|required|] == required;
    }
    assert ideas[..|ideas|] == ideas;
  }

  /** A skill is offered as a facet iff some fetched idea requires it. */
  lemma SkillsOfIdeas(ideas: seq<Listing>)
    ensures forall x :: x in FirstOccurrences(Flatten(ideas)) <==>
      exists i :: 0 <= i < |ideas| && x in ideas[i].idea.required_skills
  {
    FlattenMembers(ideas);
  }

  /** One step of the inner loop: the next skill is appended iff it is new. */
  lemma AddSkill(done: seq<string>, required: seq<string>, j: nat)
    requires j < |required|
    ensures FirstOccurrences(done + required[..j + 1]) ==
      if required[j] in FirstOccurrences(done + required[..j]) then FirstOccurrences(done + required[..j])
      else FirstOccurrences(done + required[..j]) + [required[j]]
  {
    assert done + required[..j + 1] == (done + required[..j]) + [required[j]];
    FirstOccurrencesSnoc(done + required[..j], required[j]);
  }

  /** Each skill appears before every skill whose first use comes later. */
  lemma SkillsInFirstUseOrder(ideas: seq<Listing>)
    ensures forall i, j :: 0 <= i < j < |FirstOccurrences(Flatten(ideas))| ==>
      IndexOf(Flatten(ideas), FirstOccurrences(Flatten(ideas))[i]) <
      IndexOf(Flatten(ideas), FirstOccurrences(Flatten(ideas))[j])
  {
    FirstOccurrencesOrdered(Flatten(ideas));
  }

  // ---------------------------------------------------------------------
  // The skill toggle
  // ---------------------------------------------------------------------

  /**
   The facet button's update: `prev.includes(skill) ? prev.filter(s => s !==
   skill) : [...prev, skill]`. The toggled skill changes membership; every
   other skill keeps it.
   */
  function Toggle(selected: seq<string>, skill: string): (r: seq<string>)
    ensures skill in r <==> skill !in selected
    ensures forall other :: other != skill ==> (other in r <==> other in selected)
  {
    if skill in selected then Filter(selected, (s: string) => s != skill) else selected + [skill]
  }

  /** Toggling twice restores membership. */
  lemma ToggleTwiceMembership(selected: seq<string>, skill: string)
    ensures forall x :: x in Toggle(Toggle(selected, skill), skill) <==> x in selected
  {
  }

  /** Selecting a skill and deselecting it again restores the selection exactly. */
  lemma SelectThenDeselect(selected: seq<string>, skill: string)
    requires skill !in selected
    ensures Toggle(Toggle(selected, skill), skill) == selected
  {
    var p := (s: string) => s != skill;
    FilterAppend(selected, [skill], p);
    FilterKeepsAll(selected, p);
    assert Filter([skill], p) == [];
  }

  /** The selection never holds a skill twice. */
  lemma ToggleNoDuplicates(selected: seq<string>, skill: string)
    requires NoDuplicates(selected)
    ensures NoDuplicates(Toggle(selected, skill))
  {
    if skill in selected {
      FilterNoDuplicates(selected, (s: string) => s != skill);
    }
  }

  lemma {:induction false} FilterNoDuplicates(s: seq<string>, p: string -> bool)
    requires NoDuplicates(s)
    ensures NoDuplicates(Filter(s, p))
    decreases |s|
  {
    if |s| > 0 {
      FilterNoDuplicates(s[1..], p);
      var rest := Filter(s[1..], p);
      assert forall i, j :: 0 <= i < j < |s[1..]| ==> s[1..][i] != s[1..][j];
      assert s[0] !in s[1..];
      assert s[0] !in rest;
    }
  }

  // ---------------------------------------------------------------------
  // Applying
  // ---------------------------------------------------------------------

  /** `hasApplied(ideaId)`: some loaded application is for this idea. */
  function HasApplied(applications: seq<Application>, ideaId: string): (r: bool)
    ensures r <==> exists k :: 0 <= k < |applications| && applications[k].idea_id == ideaId
  {
    if |applications| == 0 then false
    else applications[0].idea_id == ideaId || HasApplied(applications[1..], ideaId)
  }

  /**
   The developer's own applications are fetched without any ordering, so the
   answer must not depend on it: two lists with the same rows, in any order and
   with any repetition, agree.
   */
  lemma HasAppliedOrderFree(a: seq<Application>, b: seq<Application>, ideaId: string)
    requires forall x :: x in a <==> x in b
    ensures HasApplied(a, ideaId) == HasApplied(b, ideaId)
  {
    if HasApplied(a, ideaId) {
      var k :| 0 <= k < |a| && a[k].idea_id == ideaId;
      assert a[k] in b;
    }
    if HasApplied(b, ideaId) {
      var k :| 0 <= k < |b| && b[k].idea_id == ideaId;
      assert b[k] in a;
    }
  }

  /** The row `handleApply` asks the store to insert. */
  datatype ApplicationDraft = ApplicationDraft(idea_id: string, developer_id: string, note: string)

  /** What `handleApply` does: one of three refusals, or an insert. */
  datatype ApplyDecision =
    | PleaseLogIn
    | OnlyDevelopers
    | AlreadyApplied
    | Insert(draft: ApplicationDraft)

  /**
   `handleApply(ideaId)` with the note typed in the modal. An insert is issued
   iff a developer is logged in who has no loaded application for the idea,
   and it carries exactly the idea, the developer and the note. The refusals
   are tried in the source's order.
   */
  function HandleApply(user: Option<User>, applications: seq<Application>, ideaId: string, note: string): (r: ApplyDecision)
    ensures r.Insert? <==> user.Some? && user.value.user_type == Developer && !HasApplied(applications, ideaId)
    ensures r.Insert? ==> r.draft == ApplicationDraft(ideaId, user.value.id, note)
    ensures r == PleaseLogIn <==> user.None?
    ensures r == OnlyDevelopers <==> user.Some? && user.value.user_type != Developer
    ensures r == AlreadyApplied <==> user.Some? && user.value.user_type == Developer && HasApplied(applications, ideaId)
  {
    if user.None? then PleaseLogIn
    else if user.value.user_type != Developer then OnlyDevelopers
    else if HasApplied(applications, ideaId) then AlreadyApplied
    else Insert(ApplicationDraft(ideaId, user.value.id, note))
  }

  /** The message `alert` shows for each refusal. */
  function RefusalMessage(d: ApplyDecision): string
    requires !d.Insert?
  {
    match d
    case PleaseLogIn => "Please login to apply"
    case OnlyDevelopers => "Only developers can apply to ideas"
    case AlreadyApplied => "You have already applied to this idea"
  }

  /**
   Each refusal is reported with its own message: a refusal whose message is
   the one `handleApply` shows is the refusal `handleApply` made.
   */
  lemma RefusalReported(user: Option<User>, applications: seq<Application>, ideaId: string, note: string, d: ApplyDecision)
    requires !d.Insert? && !HandleApply(user, applications, ideaId, note).Insert?
    requires RefusalMessage(d) == RefusalMessage(HandleApply(user, applications, ideaId, note))
    ensures d == HandleApply(user, applications, ideaId, note)
  {
  }

  /** The stored row for a draft: the store fills in id, date and the default status. */
  function Stored(draft: ApplicationDraft, id: string, created_at: string): Application
  {
    Application(id, draft.idea_id, draft.developer_id, Some(draft.note), Pending, created_at)
  }

  /**
   Once the refreshed application list holds the stored row, a second attempt
   on the same idea is refused without an insert.
   */
  lemma SecondApplyRefused(user: Option<User>, applications: seq<Application>, ideaId: string, note: string,
                           refreshed: seq<Application>, id: string, created_at: string, note': string)
    requires HandleApply(user, applications, ideaId, note).Insert?
    requires Stored(HandleApply(user, applications, ideaId, note).draft, id, created_at) in refreshed
    ensures HandleApply(user, refreshed, ideaId, note') == AlreadyApplied
  {
    var k :| 0 <= k < |refreshed| && refreshed[k] == Stored(HandleApply(user, applications, ideaId, note).draft, id, created_at);
    assert refreshed[k].idea_id == ideaId;
  }

  /** The modal shows the note and the submit button to a developer who has not applied. */
  predicate ApplyOffered(user: Option<User>, applications: seq<Application>, ideaId: string)
  {
    user.Some? && user.value.user_type == Developer && !HasApplied(applications, ideaId)
  }

  /**
   The application form is offered (the modal's note and submit button) iff
   submitting it issues an insert.
   */
  lemma OfferedIffInsert(user: Option<User>, applications: seq<Application>, ideaId: string, note: string)
    ensures ApplyOffered(user, applications, ideaId) <==> HandleApply(user, applications, ideaId, note).Insert?
  {
  }

  /** The modal state `handleApply` touches: the open idea and the typed note. */
  datatype ApplyModal = ApplyModal(selectedIdea: Option<Listing>, note: string)

  /**
   After an insert succeeds the modal closes and the note is cleared; after a
   refusal or a failed insert the modal is left as it was.
   */
  function AfterApply(modal: ApplyModal, decision: ApplyDecision, insertSucceeded: bool): (r: ApplyModal)
    ensures decision.Insert? && insertSucceeded ==> r.selectedIdea.None? && r.note == ""
    ensures !(decision.Insert? && insertSucceeded) ==> r == modal
  {
    if decision.Insert? && insertSucceeded then ApplyModal(None, "") else modal
  }

  // ---------------------------------------------------------------------
  // Compensation shown for an idea
  // ---------------------------------------------------------------------

  /** The card's compensation line, with the amounts left abstract. */
  datatype CompensationLabel =
    | EquityPlusMonthly(equity: Option<Amount>, monthly: Option<Amount>)   // `${e}% + $${m}/mo`
    | EquityOnly(equity: Option<Amount>)                                   // `${e}% equity`
    | MonthlyOnly(monthly: Option<Amount>)                                 // `$${m}/mo`

  function CardLabel(idea: StartupIdea): CompensationLabel
  {
    if idea.compensation_type == Both then EquityPlusMonthly(idea.equity_percentage, idea.monetary_compensation)
    else if idea.compensation_type == Equity then EquityOnly(idea.equity_percentage)
    else MonthlyOnly(idea.monetary_compensation)
  }

  predicate CardShowsEquity(card: CompensationLabel)
  {
    card.EquityPlusMonthly? || card.EquityOnly?
  }

  predicate CardShowsMonthly(card: CompensationLabel)
  {
    card.EquityPlusMonthly? || card.MonthlyOnly?
  }

  /** The detail modal's lines: `Equity: …%` and `Monthly: $…`. */
  datatype DetailLines = DetailLines(equity: Option<Option<Amount>>, monthly: Option<Option<Amount>>)

  function ModalLines(idea: StartupIdea): DetailLines
  {
    var ct := idea.compensation_type;
    DetailLines(
      if ct == Equity || ct == Both then Some(idea.equity_percentage) else None,
      if ct == Monetary || ct == Both then Some(idea.monetary_compensation) else None)
  }

  /**
   The card and the modal agree on which figures an idea shows, both show the
   idea's own amounts, and every idea shows at least one figure.
   */
  lemma CardAgreesWithModal(idea: StartupIdea)
    ensures CardShowsEquity(CardLabel(idea)) <==> ModalLines(idea).equity.Some?
    ensures CardShowsMonthly(CardLabel(idea)) <==> ModalLines(idea).monthly.Some?
    ensures CardShowsEquity(CardLabel(idea)) ==> CardLabel(idea).equity == idea.equity_percentage
    ensures CardShowsMonthly(CardLabel(idea)) ==> CardLabel(idea).monthly == idea.monetary_compensation
    ensures CardShowsEquity(CardLabel(idea)) || CardShowsMonthly(CardLabel(idea))
  {
  }
}
