# Disaster information dashboard: a verified model of its state handlers

The `DisasterInfoVerificationUI` component of `dashboard.js` holds its state
in React `useState` fields: two columns of claims (verified and pending, each
entry `{id, text, upvotes, downvotes}`), the active filter labels, the
incidents shown on the map, and whether the report form is open. Its event
handlers replace those fields with new values computed from the old ones:
vote on a claim, verify a pending claim, add or remove a filter, open, cancel
and submit the incident report form. Beside the map a card shows, for each
entry of `incidentCategories`, how many incidents carry that category.

The model:

- `wrappers.dfy` (`Wrappers`): `Option`, standing for `null`/`undefined`.
- `claims.dfy` (`Claims`): the `Info` record, `updateVotes`, `find`, the
  id filter and verification, with their lemmas.
- `filters.dfy` (`Filters`): adding and removing filter labels.
- `incidents.dfy` (`Incidents`): `incidentCategories`, the `Incident`
  record, the report form's validation, appending an incident, and the
  per-category counts.
- `dashboard.dfy` (`Dashboard`): the class `VerificationUI`, whose fields are
  the component's state and whose methods are its handlers. Each method
  assigns the value of a pure function, and states what every field is
  afterwards. Its invariant `Valid()` says that incident ids are their
  1-based positions and that no claim id occurs twice across the two columns.
  Every handler preserves it.

Inputs that come from the browser are parameters. The prompt's answer is an
`Option<string>` (`None` for a cancelled prompt). The random coordinates are
`real` values passed to the submit methods.

## Model

| member | source | states |
|---|---|---|
| `Claims.UpdateVotes` | dashboard.js:154-159 | same length and order; every entry with the voted id gains exactly one upvote (type `'up'`) or one downvote (any other type), with id, text and the other counter unchanged; every other entry is unchanged |
| `Claims.VotesCommute` | dashboard.js:153-166 | two votes give the same list in either order |
| `Claims.VoteTally` | dashboard.js:153-166 | a series of votes on one id adds the number of `'up'` votes to each matching entry's upvotes and the number of other votes to its downvotes, in any order; other entries are unchanged |
| `Claims.VotePreservesUniqueIds` | dashboard.js:153-166 | a vote on one part of a list keeps ids unique across the whole list, so a vote in either column keeps claim ids unique across both |
| `Claims.FindIndex` | dashboard.js:147 | `None` exactly when no entry has the id; otherwise the index of the first entry with that id |
| `Claims.WithoutId` | dashboard.js:149 | no entry of the result carries the removed id, and the result is no longer than the input |
| `Claims.WithoutIdMembers` | dashboard.js:149 | the result holds exactly the entries whose id differs from the removed one |
| `Claims.WithoutIdAppend` | dashboard.js:149 | removal by id distributes over concatenation, so the kept entries keep their relative order |
| `Claims.WithoutAbsentId` | dashboard.js:149 | removing an id no entry carries leaves the list unchanged |
| `Claims.Verify` | dashboard.js:145-151 | no pending entry keeps the id, and the other pending entries stay in order; when the id is pending, the verified list grows at its end by exactly the first pending entry with that id; when it is absent, both lists are unchanged |
| `Claims.VerifyIdempotent` | dashboard.js:145-151 | verifying the same id twice gives the same columns as verifying it once |
| `Claims.VerifyConservesClaims` | dashboard.js:145-151 | with unique pending ids, the two columns together hold the same multiset of claims before and after a verify |
| `Claims.VerifyPreservesUniqueIds` | dashboard.js:145-151 | a verify keeps claim ids unique across both columns |
| `Claims.VerifyAsWritten` | dashboard.js:145-150 | as written: the verified list grows by exactly one entry at its end, which is `undefined` exactly when no pending claim has the id and otherwise the first match; the pending list loses every entry with the id |
| `Claims.VerifyAsWrittenAgrees` | dashboard.js:145-150 | when the id is pending, the handler as written and the corrected `Verify` give the same columns |
| `Claims.VerifyAsWrittenTwice` | dashboard.js:145-150 | as written, a second verify of the same id appends an `undefined` entry to the verified list |
| `Filters.WithFilter` | dashboard.js:136-139 | the old filters are kept as a prefix; exactly one filter, the one entered, is appended, and only when the prompt returned a non-empty string |
| `Filters.RemoveFilter` | dashboard.js:141-143 | the filter no longer occurs; every other filter keeps its multiplicity |
| `Filters.RemoveFilterAppend` | dashboard.js:141-143 | removal distributes over concatenation, so the remaining filters keep their order |
| `Filters.RemoveAbsentFilter` | dashboard.js:141-143 | removing a filter that is not active changes nothing |
| `Filters.RemoveFilterIdempotent` | dashboard.js:141-143 | removing the same filter twice is the same as removing it once |
| `Filters.RemoveFiltersCommute` | dashboard.js:141-143 | removing two filters gives the same list in either order |
| `Filters.AddThenRemove` | dashboard.js:136-143 | adding a filter and then removing it leaves the same list as removing it alone |
| `Incidents.CategoryValues` | dashboard.js:11-20 | there are eight category values and no two are equal, as the keys of the select items and category rows require |
| `Incidents.HandleSubmit` | dashboard.js:64-71 | a report is submitted exactly when description and category are both non-empty, and it carries both unchanged |
| `Incidents.AddIncident` | dashboard.js:172-182 | exactly one incident is appended, with id old length + 1, the report's description and category and the given coordinates; the existing incidents are a prefix |
| `Incidents.AddIncidentKeepsSequentialIds` | dashboard.js:172-182 | appending keeps every incident's id equal to its 1-based position |
| `Incidents.WithCategory` | dashboard.js:327 | the result holds exactly the incidents with the given category |
| `Incidents.CategoryCount` | dashboard.js:327 | the badge count of a category is never more than the number of incidents |
| `Incidents.CategoryCountZero` | dashboard.js:327 | a category's count is 0 exactly when no incident carries it |
| `Incidents.WithCategoryAppend` | dashboard.js:327 | filtering by category distributes over concatenation |
| `Incidents.CategoryCountIsOccurrences` | dashboard.js:327 | a category's count equals the number of times it occurs among the incidents' categories |
| `Incidents.AddIncidentCounts` | dashboard.js:172-182 | submitting raises the count of the report's category by one and leaves every other count unchanged |
| `Incidents.CountsOver` | dashboard.js:323-327 | one count per listed category, in list order |
| `Incidents.CategoryCounts` | dashboard.js:323-327 | one count per entry of `incidentCategories`, in display order, each the number of incidents with that value |
| `Incidents.CountsOverSum` | dashboard.js:323-327 | over distinct categories that cover every incident, the counts sum to the number of incidents |
| `Incidents.CategoryCountsSum` | dashboard.js:323-327 | when every incident's category is in `incidentCategories`, the card's counts sum to the number of incidents |
| `Dashboard.VerificationUI.constructor` | dashboard.js:114-128 | the initial state: no filters, claims 1 and 2 verified, 3 and 4 pending, incidents 1 and 2, form closed; the invariant holds |
| `Dashboard.VerificationUI.AddFilter` | dashboard.js:136-139 | the filters become `WithFilter` of the old ones; nothing else changes |
| `Dashboard.VerificationUI.RemoveFilter` | dashboard.js:141-143 | the filters become `RemoveFilter` of the old ones, so the filter is gone; nothing else changes |
| `Dashboard.VerificationUI.VerifyInfo` | dashboard.js:145-151 | both columns become `Verify` of the old ones, with the same multiset of claims and unique ids kept; nothing else changes |
| `Dashboard.VerificationUI.Vote` | dashboard.js:153-166 | only the column chosen by `isPending` (pending if true) is updated by `UpdateVotes`; the other column and all other fields are unchanged |
| `Dashboard.VerificationUI.OpenReportForm` | dashboard.js:168-170 | the form is open; nothing else changes |
| `Dashboard.VerificationUI.CancelReport` | dashboard.js:306 | the form is closed; nothing else changes |
| `Dashboard.VerificationUI.SubmitIncident` | dashboard.js:172-184 | the incidents become `AddIncident` of the old ones, ids stay sequential, the report's category count rises by one and no other, the form is closed; claims and filters are unchanged |
| `Dashboard.VerificationUI.SubmitReportForm` | dashboard.js:64-71 | an incident is appended and the form closed exactly when description and category are both non-empty; otherwise nothing changes |
| `Dashboard.VerificationUI.CategoryCountsShown` | dashboard.js:323-327 | the counts shown per category; they add up to the number of incidents when all categories are known |
| `Dashboard.InitialCountsAddUp` | dashboard.js:124-127 | the initial incidents have known categories, so the initial card's counts add up to 2 |

## Findings

| source | as written | input that shows it | evidently intended | confidence | as-written member | corrected member |
|---|---|---|---|---|---|---|
| dashboard.js:145-150 | `find` returns `undefined` when no pending claim has the id, and that `undefined` is still appended to `verifiedInfo` | a verify of an id after it has already left the pending list, such as a second verify of the same id (or a repeated or stale event): the verified list then ends with `undefined`, and rendering `info.id` fails. | verifying an absent id, or verifying twice, changes nothing | not executed; the bug follows from the code, but whether a second call can reach the handler before the button disappears depends on React's event scheduling | `Claims.VerifyAsWrittenTwice` | `Claims.VerifyIdempotent` |

`Claims.VerifyAsWritten` models the handler as written, with `None` standing for `undefined`. `Claims.Verify` is the corrected handler: an absent id changes nothing. The class uses the corrected `Verify`.

## Left out

- `searchTerm` and `handleSearch` (dashboard.js:114, 130-134): the handler only logs the term and has no search logic.
- The media file of the report form (dashboard.js:62, 94-104): it is passed to `onSubmit`, but `handleSubmitIncident` never reads it, and file selection is browser I/O.
- `prompt` (dashboard.js:137) and `alert` (dashboard.js:69): browser I/O. The prompt's answer is a parameter, and the alert branch is the "nothing changes" case.
- `Math.random() * 100` (dashboard.js:177-178): floating-point randomness. The coordinates are `real` parameters, and the model does not constrain them to the range 0 to 100.
- React scheduling: `setVerifiedInfo` is invoked inside the `setPendingInfo` updater (dashboard.js:146-148), and strict mode may call that updater twice, which would append the claim twice. The model applies the updates one after another, once each.
- Rendering, `NewsItem`, `MapComponent` and the UI widget library: presentation only.
- `Claims.UpdateVotes`: counters and ids are unbounded integers. JavaScript's floating-point numbers lose precision beyond 2^53, and that is not modelled.
- The category is a free string in the code: the form only checks that it is non-empty (dashboard.js:66). In the UI, `category` is only ever set by the select at dashboard.js:75-85, whose items all come from `incidentCategories`, so every incident the UI creates carries a listed category. The model does not rely on this, because what the select can emit is decided by the widget library, which is not part of this model. `Incidents.CategoryCountsSum` therefore takes as a precondition that all categories are listed ones.
