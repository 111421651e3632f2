# Cofounder marketplace: the decision logic, modelled in Dafny

The marketplace connects founders, who post startup ideas, with developers,
who browse the ideas and apply. Founders approve or reject applications. Once
an application is approved, its contact details are shown. Almost all of the
application is a thin client over a hosted database. This project models the
part that makes decisions, as pure functions over immutable records:

- `Types` (`types.dfy`): the `User`, `StartupIdea` and `Application` records.
  It also holds the three closed enumerations (`user_type`,
  `compensation_type`, `status`), each with its string spelling and a parser.
  Optional fields are `Option`s. `has_nda` and `required_skills` are always
  present.
- `Seqs` (`seqs.dfy`): the order-preserving `filter` and the first-occurrence
  de-duplication that a JavaScript `Set` performs. Several pages use them.
- `Text` (`text.dfy`): the string built-ins the pages call. These are
  `toLowerCase`, `toUpperCase`, `includes`, `trim`, `split(',')` and
  `replace(/\D/g, '')`, all over ASCII.
- `IdeaList` (`idea_list.dfy`): the idea browser. It covers the search and
  skill filter, the skill facets, the skill toggle, `hasApplied`, the guard
  in `handleApply`, and which compensation figures are shown.
- `Applications` (`applications.dfy`): the review page. It covers the
  row filter for each role, the Approve/Reject status update, the button and
  contact gates, the status badge and label, and the WhatsApp link.
- `Dashboard` (`dashboard.dfy`): building the new-idea payload (skill split
  and trim, empty amount to null), which amount inputs are shown, the
  browser's `required` check, the form reset, and the founder's own ideas.
- `Routing` (`routing.dfy`): the route table, the `PrivateRoute` decision and
  the redirect on `/`.

The remote store is a sequence of rows passed in as input. Three queries sort
by `created_at`, newest first: `fetchIdeas` (src/pages/IdeaList.tsx:53),
`fetchApplications` (src/pages/Applications.tsx:34) and `fetchFounderIdeas`
(src/pages/Dashboard.tsx:33). For these the sequence is taken to be already in
that order, and "store order" below means that order. The developer's own
applications (`fetchUserApplications`, src/pages/IdeaList.tsx:29-42) come
back unordered; `IdeaList.HasApplied` does not depend on their order
(`IdeaList.HasAppliedOrderFree`). The query filters and the status update are
functions over the sequence. Each insert is
returned as the row it would write.

Behaviour of the code worth knowing:

- `required_skills` is a list, not a set. The comma split can give duplicate
  entries, and also empty entries (`"a,,b"`).
- The card and the idea modal choose which amounts to show by compensation
  type, but never check that those amounts are present. A missing amount
  prints as `null` on the card (a template string) and as nothing in the
  modal (`IdeaList.CardLabel`, `IdeaList.ModalLines`).
- The payload sends any amount that was typed, even when the current type
  hides that input (`Dashboard.AmountsIgnoreType`).
- The `/` route does not wait for the loading flag.

## Model

| member | source | states |
|---|---|---|
| Types.ParseUserType | src/types/index.ts:5 | only "founder" and "developer" are user types, and each reads back to its own spelling |
| Types.ParseCompensationType | src/types/index.ts:20 | only "equity", "monetary" and "both" are compensation types, and each reads back to its own spelling |
| Types.ParseStatus | src/types/index.ts:33 | only "pending", "approved" and "rejected" are statuses, and each reads back to its own spelling |
| Types.UserTypeRoundTrip | src/types/index.ts:5 | every user type has exactly one spelling, and parsing that spelling gives the type back |
| Types.CompensationTypeRoundTrip | src/types/index.ts:20 | every compensation type has exactly one spelling, and parsing that spelling gives the type back |
| Types.StatusRoundTrip | src/types/index.ts:33 | every status has exactly one spelling, and parsing that spelling gives the status back |
| Seqs.Filter | src/pages/IdeaList.tsx:121-127 | `filter` keeps exactly the elements that satisfy the predicate and never makes the list longer |
| Seqs.FilterAppend | src/pages/IdeaList.tsx:121-127 | filtering a concatenation filters each part in place, so the order is preserved |
| Seqs.FilterCount | src/pages/IdeaList.tsx:121-127 | each kept element occurs as often as in the input, and each dropped element does not occur |
| Seqs.FirstOccurrences | src/pages/IdeaList.tsx:59-63 | the `Set` read-back holds every input element, each exactly once |
| Seqs.FirstOccurrencesOrdered | src/pages/IdeaList.tsx:59-63 | the `Set` read-back lists the elements in the order of their first occurrence |
| Text.Contains | src/pages/IdeaList.tsx:122-123 | `includes` holds exactly when the needle occurs at some position of the haystack |
| Text.LowerIgnoresCase | src/pages/IdeaList.tsx:122-123 | two strings that differ only in the case of ASCII letters have the same lower-case form |
| Text.Trim | src/pages/Dashboard.tsx:49 | `trim` returns the inner part of the string, with whitespace at neither edge and no new characters |
| Text.TrimIdempotent | src/pages/Dashboard.tsx:49 | trimming twice is the same as trimming once |
| Text.Split | src/pages/Dashboard.tsx:49 | `split(',')` gives one segment per comma plus one, none of them holding a comma |
| Text.JoinSplit | src/pages/Dashboard.tsx:49 | joining the segments of `split(',')` with commas gives the input back |
| Text.SplitJoin | src/pages/Dashboard.tsx:49 | splitting a join of comma-free segments gives back the same segments |
| Text.DigitsSpec | src/pages/Applications.tsx:174 | the digit strip keeps only digits, keeps each digit as often as in the input, and keeps them in order |
| Text.DigitsIdempotent | src/pages/Applications.tsx:174 | stripping the non-digits twice is the same as stripping them once |
| Text.Capitalize | src/pages/Applications.tsx:112 | only the first character is upper-cased; the rest and the length are unchanged |
| IdeaList.AnySelectedRequired | src/pages/IdeaList.tsx:124-125 | `some` over the selected skills holds iff one of them is among the idea's required skills |
| IdeaList.FilterIdeasSpec | src/pages/IdeaList.tsx:121-127 | the list shows exactly the fetched ideas that pass both the search and the skill predicate, each as often as fetched, in fetch order |
| IdeaList.NoFilterKeepsAll | src/pages/IdeaList.tsx:122-125 | with an empty term and no selected skill, the filtered list is the fetched list |
| IdeaList.SearchOnly | src/pages/IdeaList.tsx:122-123 | with no skill selected, an idea is listed iff the lower-cased term occurs in its lower-cased title or description |
| IdeaList.SkillsAreOred | src/pages/IdeaList.tsx:124-125 | with a non-empty selection, an idea passes iff at least one selected skill is required (OR across skills) |
| IdeaList.SearchIgnoresCase | src/pages/IdeaList.tsx:122-123 | changing the case of ASCII letters in the term does not change the list |
| IdeaList.UpperCaseSearch | src/pages/IdeaList.tsx:122-123 | searching for the upper-cased term gives the same list |
| IdeaList.FlattenMembers | src/pages/IdeaList.tsx:59-62 | a skill occurs in the flattened list iff some fetched idea requires it |
| IdeaList.ExtractSkills | src/pages/IdeaList.tsx:59-63 | `allSkills` holds every skill of every fetched idea exactly once, in first-occurrence order |
| IdeaList.SkillsOfIdeas | src/pages/IdeaList.tsx:59-63 | a skill is in `allSkills` iff some fetched idea requires it |
| IdeaList.SkillsInFirstUseOrder | src/pages/IdeaList.tsx:59-63 | a skill comes before every skill whose first use comes later |
| IdeaList.Toggle | src/pages/IdeaList.tsx:149-151 | toggling flips the membership of that skill and leaves every other skill's membership unchanged |
| IdeaList.ToggleTwiceMembership | src/pages/IdeaList.tsx:149-151 | toggling the same skill twice restores every membership |
| IdeaList.SelectThenDeselect | src/pages/IdeaList.tsx:149-151 | selecting an unselected skill and then deselecting it restores the exact selection |
| IdeaList.ToggleNoDuplicates | src/pages/IdeaList.tsx:149-151 | toggling never puts a skill into the selection twice |
| IdeaList.HasApplied | src/pages/IdeaList.tsx:117-119 | `hasApplied(id)` holds iff some loaded application has `idea_id = id` |
| IdeaList.HasAppliedOrderFree | src/pages/IdeaList.tsx:32-35 | the answer of `hasApplied` does not depend on the order or repetition of the unordered application list |
| IdeaList.HandleApply | src/pages/IdeaList.tsx:71-95 | there is no insert without a user, for a non-developer, or after applying already (tried in that order); otherwise exactly `{idea_id, developer_id = user.id, note}` is inserted |
| IdeaList.SecondApplyRefused | src/pages/IdeaList.tsx:81-86 | once the refreshed list holds the stored application, applying again to that idea is refused without an insert |
| IdeaList.RefusalReported | src/pages/IdeaList.tsx:71-86 | each of the three refusals is reported with a message of its own, so the message shown identifies the refusal made |
| IdeaList.OfferedIffInsert | src/pages/IdeaList.tsx:285-301 | the application form is offered exactly when submitting it would issue an insert |
| IdeaList.AfterApply | src/pages/IdeaList.tsx:97-106 | a successful insert closes the modal and clears the note; a refusal or a failed insert leaves both as they were |
| IdeaList.CardAgreesWithModal | src/pages/IdeaList.tsx:199-274 | the card and the modal show the same compensation figures, taken from the idea's own amounts, and always at least one |
| Applications.FetchApplicationsSpec | src/pages/Applications.tsx:33 | a founder gets exactly the rows of ideas they own, and a developer exactly their own rows, both in store order |
| Applications.DecisionStatus | src/pages/Applications.tsx:71 | an action never sets a row back to pending |
| Applications.SetStatus | src/pages/Applications.tsx:71-77 | rows with the given id get the new status and keep every other field; all other rows are untouched; the old status is not consulted |
| Applications.SetStatusIdempotent | src/pages/Applications.tsx:71-77 | a second identical action (a double click) changes nothing more |
| Applications.SetStatusLastWins | src/pages/Applications.tsx:71-77 | of two actions on a row the last one wins, because the update accepts any transition |
| Applications.SetStatusSingleRow | src/pages/Applications.tsx:71-77 | when ids are unique, exactly one row changes |
| Applications.OfferedTransitions | src/pages/Applications.tsx:148-165 | buttons are offered only on pending rows seen by a founder; an action leads to approved or rejected, and after it no button is offered |
| Applications.Applicant | src/pages/Applications.tsx:116-146 | the applicant block appears iff the viewer is a founder and the developer was embedded; it shows that developer's name and id, and the expertise and note only when they have text |
| Applications.ApplicantOnlyForFounders | src/pages/Applications.tsx:116 | a developer never sees an applicant block, and an empty note is never displayed |
| Applications.WhatsAppLink | src/pages/Applications.tsx:167-182 | the link appears iff the application is approved, the viewer is a founder, and the developer has a non-empty number; it targets the number's digits |
| Applications.NoRowLinkUnlessApproved | src/pages/Applications.tsx:167-182 | the row's contact block never shows a WhatsApp link on a pending or rejected application |
| Applications.WhatsAppNumberDigits | src/pages/Applications.tsx:174 | the link number keeps exactly the digits of the stored number, in order, and stripping it again changes nothing |
| Applications.BadgeClass | src/pages/Applications.tsx:60-69 | the badge is green for "approved", red for "rejected", and yellow for any other string |
| Applications.BadgeOfStatus | src/pages/Applications.tsx:60-69 | pending rows get the yellow badge, approved rows the green one, and rejected rows the red one |
| Applications.StatusLabel | src/pages/Applications.tsx:112 | the label is the status with its first character upper-cased and has the same length |
| Applications.StatusLabels | src/pages/Applications.tsx:112 | the labels are "Pending", "Approved" and "Rejected", and lower-casing a label gives its status back |
| Dashboard.SkillList | src/pages/Dashboard.tsx:49 | there is one entry per comma-separated segment (commas + 1), in input order; each entry is that segment trimmed and holds no comma |
| Dashboard.SkillListJoin | src/pages/Dashboard.tsx:49 | when no segment has whitespace at its edges, joining the skill list gives the input back |
| Dashboard.SkillListStable | src/pages/Dashboard.tsx:49 | re-entering the joined skill list yields the same list |
| Dashboard.OptionalAmount | src/pages/Dashboard.tsx:51-52 | an amount is null iff its text is empty, and otherwise it is read from that text |
| Dashboard.BuildPayload | src/pages/Dashboard.tsx:45-55 | the payload's founder is the current user; title, description, terms, NDA flag and type are copied; skills are split and trimmed; an amount is null iff its text is empty |
| Dashboard.AmountsIgnoreType | src/pages/Dashboard.tsx:51-52 | whether an amount is sent does not depend on the compensation type |
| Dashboard.InputsMatchListing | src/pages/Dashboard.tsx:242-267 | the equity input is shown iff the type is equity or both, and the monetary input iff the type is monetary or both, matching the listing card; at least one is shown |
| Dashboard.SubmittedAmountsPresent | src/pages/Dashboard.tsx:242-267 | a form that passes the `required` check carries every amount its type calls for |
| Dashboard.InitialFormBlocked | src/pages/Dashboard.tsx:196-227 | the initial form fails the browser's `required` check |
| Dashboard.AfterSubmit | src/pages/Dashboard.tsx:61-76 | after a successful insert the modal closes, the ideas are fetched again and the form is back to its initial state; after an error nothing changes |
| Dashboard.ResetFormBlocked | src/pages/Dashboard.tsx:11-20 | the reset form cannot be submitted again until it is filled in |
| Dashboard.FounderIdeas | src/pages/Dashboard.tsx:22-40 | founder ideas are fetched only for a founder, and are exactly the stored ideas that founder owns |
| Dashboard.FounderIdeasAppend | src/pages/Dashboard.tsx:28-33 | the founder's ideas keep store order: over a store in two parts they are the first part's followed by the second's |
| Dashboard.PostButtonIffOwnIdeas | src/pages/Dashboard.tsx:89 | the "Post New Idea" button is shown exactly when the viewer's own ideas are fetched, that is, to founders only |
| Routing.ParseRoute | src/App.tsx:29-71 | a path selects a route only if it is that route's own path |
| Routing.ParseRoutePath | src/App.tsx:29-71 | every route, `/developer/:id` included, is selected by its own path |
| Routing.PrivateRoute | src/App.tsx:14-22 | while loading, the loading view is shown whatever the user value; otherwise the child is rendered iff a user is present, and the visitor is redirected to `/login` if not |
| Routing.RootView | src/App.tsx:29 | `/` redirects to `/dashboard` iff a user is present, and shows Home otherwise |
| Routing.GatedPagesNeedUser | src/App.tsx:30-71 | a gated page is shown only to a resolved, present user; without one the visitor is sent to `/login`; `/login` and `/signup` are shown to anyone |
| Routing.DashboardAfterLogin | src/App.tsx:14-40 | without a session `/dashboard` redirects to `/login`; with a session it shows the dashboard |
| Routing.RedirectsSettle | src/App.tsx:14-29 | every redirect targets a path of the table, and opening that path does not redirect again |

## Left out

- The hosted data service: its `select`, `insert` and `update` calls, joins, error values and latency. The `order('created_at', { ascending: false })` sort is not modelled either: the store is assumed to be in that order already. Rows come in as sequences, and inserts are returned as values.
- Applications.FetchApplicationsSpec: states the intended row filter. The query service applies `.eq('startup_ideas.founder_id', …)` to an embedded resource without an inner join, and that may keep the other rows with their idea blanked. Those semantics are outside this model.
- `handleViewDetails` and the developer-details modal (src/pages/Applications.tsx:45-58, 202-285): a fetch by id and rendering. The "View Details" button is on every row a founder sees, whatever its status, and the modal is written to show the developer's email, WhatsApp link, GitHub and LinkedIn without any status check. Approval therefore gates only the row's own contact block. As written, the modal also uses the `Mail` icon (line 235), which line 4 does not import, so opening it fails when it renders.
- `parseFloat`, number formatting, and the browser's `step` check on the amount inputs (`step="0.01"` for equity at src/pages/Dashboard.tsx:247, the default step 1 for the monthly amount). The `step` check only adds refusals, so `Dashboard.SubmittedAmountsPresent` and `Dashboard.InitialFormBlocked` still hold. Amounts are abstract values named by their input text, so the card text `5% + $2000/mo` is modelled only by which figures it shows.
- `toLocaleDateString` (src/pages/IdeaList.tsx:109-115), because it depends on the locale.
- Full Unicode case mapping and whitespace. Case mapping covers ASCII letters only, and trimming covers ASCII whitespace only.
- Routing.ParseRoute: matches paths exactly. The router's case-insensitive matching and its tolerance of a trailing slash are not modelled.
- Asynchronous interleavings are not modelled: double clicks racing a re-fetch, a component unmounting mid-fetch, and two tabs applying at once. Uniqueness of applications is checked only against the loaded list.
- The authentication context and the client library, whose source is not part of this model. `Login` and `SignUp` are route targets only.
- Console logging and the success and failure `alert` calls. Only the three refusal messages of `handleApply` are kept (`IdeaList.RefusalMessage`, `IdeaList.RefusalReported`).
- Pages that only render or fetch: Home, Profile, DeveloperProfile and Navbar. Also the dashboard's fixed statistics figures.
