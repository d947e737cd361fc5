# User directory: a Dafny model of the CRUD view's state machine

The repository is a single React component (`src/App.jsx`). It holds a list
of user records in memory and shows them in a table that can be filtered by
free-text search. A form adds new records and edits existing ones, and each
row has a delete button. This project models that component's state and
event handlers as pure functions over immutable values, and proves what each
handler does to the store, the form and the edit target.

- `Users` (`users.dfy`): the `User` record and the form fields. `Set` is the
  one-field merge done by `handleChange`. `EmptyDraft` is the object that
  `resetForm` installs.
- `RecordStore` (`record_store.dfy`): the store is a `seq<User>`. It has
  delete-by-id (`data.filter`) and replace-by-id (`data.map`), plus the
  invariant that ids are present and unique.
- `Search` (`search.dfy`): the `filteredData` predicate, a case-insensitive
  substring test over name, email, location and occupation.
- `Directory` (`directory.dfy`): the component state
  `State(store, draft, editingId, search)` with one transition per handler.
  It also has the add/update dispatch of the submit button, the state
  invariant `WellFormed`, and its preservation along any sequence of events.
- `Text` (`text.dfy`): ASCII `toLowerCase` and `includes`. The search
  predicate uses `Occurs`, "the needle occurs at some index", as its
  definition of `includes`. `Includes` is a stand-alone reference algorithm
  for `String.prototype.includes`, the naive search over start positions,
  and its contract proves it agrees with `Occurs`.
- `Seqs` (`seqs.dfy`): `filter`, `map` and the order-preserving subsequence
  relation.
- `Optional` (`optional.dfy`): the `Option` type.
- `Scenarios` (`scenarios.dfy`): worked examples. They cover prepend,
  in-place update, deletion, search, and an add-edit-commit session.

Parameters stand in for the nondeterministic inputs:
- `freshId` stands for `Date.now()` (src/App.jsx:43).
- `today` stands for `new Date().toLocaleDateString()` (src/App.jsx:20, 75).
- `Load` takes an optional response. `None` stands for the failed fetch,
  which keeps the empty store.

The source does not require the clock to return an unused id, so `AddUser`
has no such precondition. Freshness is a precondition only of the lemmas
about id uniqueness. The matching `Directory.Admissible` condition also asks
that a loaded list carry present, unique ids.

`User.id` is an `Option`. The form's default object has no `id` property. An
edit copies the stored record, id included, into the form. An update then
stores that form object as it is. Both kinds of object therefore share one
type. While an edit is open the draft carries the edited id, which is part
of `WellFormed`. As a result, an update leaves the id at every position as it
was, and this is why ids stay unique through edits.

Only `handleAddUser` checks name and email (src/App.jsx:36-39).
`handleUpdateUser` (src/App.jsx:59-63) stores the form as it is, and
`Directory.UpdateStoresBlankName` proves that an edit can store a record with
an empty name.

## Model

| member | source | states |
|---|---|---|
| Users.Set | src/App.jsx:32 | the spread `{ ...newUser, [name]: value }` makes the named field read the new value; every other field, the id, the status flag and the date are unchanged |
| Users.SetSameValue | src/App.jsx:32 | writing back the value a field already shows leaves the record equal to itself |
| Users.SetOverwrites | src/App.jsx:32 | a second edit of the same field replaces the first |
| Users.SetCommutes | src/App.jsx:32 | edits to two different fields can be applied in either order |
| Users.EmptyDraft | src/App.jsx:65-77 | the reset form has no id, all seven inputs empty, `is_active` true and the registration date set to today |
| Directory.Initial | src/App.jsx:9-22 | the mounted state has an empty store, an empty search, no edit target and the default form, and it satisfies the state invariant |
| Directory.Load | src/App.jsx:24-29 | a response replaces the store wholesale; a failed load changes nothing; the form, edit target and search are never touched |
| Directory.Change | src/App.jsx:31-33 | only the named field of the draft changes; the store, the edit target, the search and the draft's id are unchanged |
| Directory.AddUser | src/App.jsx:35-48 | the notification is raised exactly when name or email is empty, and then the state is unchanged; otherwise the store grows by one, the head is the draft with the fresh id, the old records follow in order, and the form is reset |
| Directory.Delete | src/App.jsx:50-52 | no record with the id remains; every record with another id stays, as often as it was stored, and in store order; the form and search are untouched |
| Directory.BeginEdit | src/App.jsx:54-57 | the clicked record becomes the draft and its id becomes the edit target; the store is unchanged |
| Directory.UpdateUser | src/App.jsx:59-63 | the length is preserved; each position holding the target id now holds the draft, every other position is unchanged; the edit target is cleared and the form reset; there is no name or email check |
| Directory.Commit | src/App.jsx:138-143 | with an edit target the submit is never refused, keeps the length, puts the draft at every position carrying the edited id and leaves every other position unchanged; without one it is refused exactly when name or email is empty, and otherwise prepends the draft with the fresh id; every accepted submit leaves the default form and no edit target |
| Directory.SetSearch | src/App.jsx:90-95 | typing in the search box changes the query and nothing else |
| Directory.View | src/App.jsx:79-83 | the rows shown are the matching stored records, each as often as it is stored, in store order |
| Directory.AddPreservesWellFormed | src/App.jsx:41-46 | prepending the draft with an id not yet stored keeps the ids present and pairwise distinct |
| Directory.UpdatePreservesWellFormed | src/App.jsx:59-63 | an update keeps ids present and distinct, because the draft carries the edited id |
| Directory.ApplyPreservesWellFormed | src/App.jsx:24-63 | every handler, given a fresh clock value and a well-formed loaded list, preserves the state invariant |
| Directory.RunPreservesWellFormed | src/App.jsx:24-63 | the invariant holds after any admissible sequence of events, so stored ids stay unique |
| Directory.AddThenDelete | src/App.jsx:35-52 | deleting the fresh id right after a successful add gives back the store as it was |
| Directory.DeleteUnknownId | src/App.jsx:50-52 | deleting an id that no record carries is a silent no-op on the whole state |
| Directory.DeleteStoredDropsOne | src/App.jsx:50-52 | in a well-formed state, deleting a stored id removes exactly one record |
| Directory.UpdateUnknownTarget | src/App.jsx:59-63 | updating after the edited record was deleted leaves the store unchanged |
| Directory.EditCommitUnchanged | src/App.jsx:54-63 | opening a stored record and submitting it unchanged leaves the store as it was |
| Directory.EditChangeCommit | src/App.jsx:31-63 | open, edit one field and submit: the record is replaced in place by the edited copy with the same id, the other records and the length are unchanged, and the form is reset |
| Directory.UpdateStoresBlankName | src/App.jsx:59-63 | an update can store a record whose name is empty, which add refuses |
| RecordStore.RemoveById | src/App.jsx:51 | the filter drops every record with the id and keeps every other record as often as it occurred, in order |
| RecordStore.RemoveAbsent | src/App.jsx:51 | filtering out an id nobody carries returns the store unchanged |
| RecordStore.RemoveStoredDropsOne | src/App.jsx:51 | with unique ids, filtering out a stored id shortens the store by exactly one |
| RecordStore.RemovePreservesIds | src/App.jsx:51 | filtering keeps ids present and unique |
| RecordStore.RemoveAfterPrepend | src/App.jsx:46-51 | filtering out the id of a record that was just prepended with an unused id gives back the old store |
| RecordStore.ReplaceById | src/App.jsx:60 | the map keeps the length, puts the draft at every position with the target id and leaves every other position alone |
| RecordStore.ReplaceKeepsIds | src/App.jsx:60 | if the replacement carries the target id, the id at every position is unchanged, so the ids stay present and unique |
| RecordStore.ReplaceAbsent | src/App.jsx:60 | mapping with a target nobody carries returns the store unchanged |
| RecordStore.ReplaceWithStored | src/App.jsx:60 | with unique ids, replacing a record by itself returns the store unchanged |
| RecordStore.ReplaceIdempotent | src/App.jsx:60 | replacing twice with the same record is the same as replacing once |
| Search.Filtered | src/App.jsx:79-83 | the filtered rows form an order-preserving subsequence of the store; a record appears exactly when it is stored and matches, as often as it is stored |
| Search.FilteredEmptyQuery | src/App.jsx:79-83 | an empty search shows the whole store |
| Search.MatchesLowerQuery | src/App.jsx:82 | a record matches a query exactly when it matches the lower-cased query |
| Search.FilteredLowerQuery | src/App.jsx:79-83 | lower-casing the query does not change the rows shown |
| Search.LowerHaystack | src/App.jsx:80-81 | lower-casing the joined text lower-cases each searched field and keeps the single-space separators |
| Search.MatchesLowerFields | src/App.jsx:80-81 | lower-casing a record's searched fields does not change whether it matches |
| Seqs.Filter | src/App.jsx:79-83 | `filter` keeps exactly the elements that satisfy the predicate, each as often as it occurs, in order |
| Text.Lower | src/App.jsx:81-82 | lower-casing keeps the length, maps each character through ASCII lower-casing and leaves no capital letter |
| Text.LowerIdempotent | src/App.jsx:81-82 | lower-casing twice is the same as lower-casing once |
| Text.LowerConcat | src/App.jsx:80-81 | lower-casing distributes over concatenation |
| Text.Includes | src/App.jsx:82 | the search over start positions returns true exactly when the needle occurs at some index |
| Text.OccursEmpty | src/App.jsx:82 | the empty string occurs in every string |
| Text.NotOccursWithoutFirst | src/App.jsx:82 | a needle whose first character is absent from the haystack does not occur in it |
| Scenarios.AddPrependsExample | src/App.jsx:35-48 | store [A, B] plus draft C gives [C, A, B], and C gets the fresh id |
| Scenarios.AddRejectsExample | src/App.jsx:35-39 | a draft with an empty name raises "Name and Email are required" and changes nothing |
| Scenarios.UpdateExample | src/App.jsx:54-63 | editing B in [A, B, C] gives [A, B', C] |
| Scenarios.DeleteExample | src/App.jsx:50-52 | deleting B's id from [A, B, C] gives [A, C] |
| Scenarios.DeleteUnknownExample | src/App.jsx:50-52 | deleting an id nobody carries leaves the state as it was |
| Scenarios.SearchExample | src/App.jsx:79-83 | "LOND" matches a record located in London, and "paris" does not match it |
| Scenarios.EndToEndExample | src/App.jsx:31-63 | add Bob, edit his location and submit: one record remains, with the new location and the id the add gave him, and the form is reset |

## Left out

- The fetch of `/data.json` and the `console.log` of its failure (src/App.jsx:24-29) are network and diagnostic I/O. `Load` takes the settled response as a parameter.
- `alert` (src/App.jsx:37) is a UI side effect. It is modelled as the `alert` component of `Step`.
- `Date.now()` and `toLocaleDateString()` (src/App.jsx:20, 43, 75) depend on the clock and the locale. They are the `freshId` and `today` parameters, and whether timestamps really are unique is not modelled.
- `toLowerCase` is modelled for ASCII only. Full Unicode case mapping is not modelled.
- JavaScript truthiness is not modelled: an `editingId` of `0` counts as "no edit target" in the source (src/App.jsx:99, 140). `editingId` is an `Option` here, and any present id selects update.
- A missing field is interpolated as the text `undefined` in the search text (src/App.jsx:80). Every field here is a string.
- Loose JSON records are not modelled: the loaded list is taken as a list of well-formed user records. Non-string fields and duplicate or missing ids in it are excluded by `Directory.Admissible`.
- Deleting a row that has no id is not modelled. `Delete` takes an id, and in a well-formed state every stored record has one.
- Rendering is not modelled (src/App.jsx:85-237). This covers the table, the form inputs, row numbering, the Active/Inactive label and the "No matching users found" row.
- React's batching of `setState` calls is not modelled. Each handler is one atomic transition.
- `validEmail` and `validPassword` are imported from `./regex.js` but never used (src/App.jsx:6). `src/regex.js` is not part of this model.
- The overlay editing variant of the component is not modelled.
