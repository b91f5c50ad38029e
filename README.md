# HackHub hackathon lists, in Dafny

HackHub is a React front end for publishing and browsing hackathons. This
project models the logic at its core:

- **The list filter** (`hackathons.dfy`, module `Hackathons`). The
  `useHackathons` hook, the Dashboard page and the Index page each hold a
  collection of hackathons and a visible subset. The subset is recomputed from
  three selectors: status ("all" switches it off), date (empty switches it off)
  and a search term (empty switches it off). The search term is lower-cased and
  looked for as a substring of the lower-cased name, description and location;
  the hook also searches the college name and the technology tags
  (`SearchFields.Extended`). The staged filter is proved equal to one filter by
  a reference predicate `Passes`. From that come soundness and completeness per
  selector, order preservation, idempotence, and the behaviour under appending
  one record or removing an id.
- **The list state** (`store.dfy`, class `ListState.HackathonList`). The
  collection, the visible list, the loading flag, the selectors and the
  five-field create form of the Dashboard and Index pages. There is one method
  per source operation:
  - fetch, in the hook's and the Dashboard's variants;
  - delete, in the hook's, the Dashboard's and the Index page's variants;
  - the Index page's seeding timer and its local append;
  - the Dashboard's insert-then-refetch.

  Each back-end outcome is a parameter. The invariant `Valid()` says the
  visible list is the filter of the collection under the current selectors.
  Every method keeps it and states the new collection. Module `IndexScenarios`
  checks the Index page's seed data against concrete selectors. It also shows
  that its locally assigned ids can repeat.
- **The create dialog** (`dialog.dfy`, module `AddHackathon`). This covers:
  - `validateForm`: ten required fields in a fixed order, then an "@" in the
    coordinator email;
  - the technologies parser: split on ",", trim each piece, drop empty pieces;
  - `handleFormSubmit`: validate, require a signed-in user, insert, and reset
    the form to its defaults only on success.
- Supporting modules:
  - `Seqs`: `Array.filter` as `Keep`, and the subsequence order;
  - `Strings`: ASCII `toLowerCase`, `includes`, ECMAScript `trim`, and `split`/`join` on one character;
  - `Outcomes`: `Option` and the success-or-error outcome of a back-end call.

JavaScript's dynamic typing shows in one place. Ids fetched from the back end
are strings, while the Index page assigns numbers. Strict equality never
equates the two kinds, so ids are a `Value` of `Str` or `Num`.

## Model

| member | source | states |
|---|---|---|
| Hackathons.Filter | src/hooks/useHackathons.ts:82-112 | the filter effect never shows more records than the collection holds, and every record it shows is in the collection and passes every active selector |
| Hackathons.FilterIsKeepPasses | src/hooks/useHackathons.ts:82-112 | the staged status, date and search filters equal a single filter by "passes every active selector" |
| Hackathons.FilterMembership | src/pages/Dashboard.tsx:87-116 | a record is visible iff it is in the collection and passes every active selector |
| Hackathons.FilterSound | src/pages/Index.tsx:75-104 | a visible record has the selected status, exactly the selected date, and the lower-cased term inside its lower-cased name, description or location (or, for the hook, college name or a tag) |
| Hackathons.FilterComplete | src/hooks/useHackathons.ts:97-108 | every record of the collection that passes every active selector is visible |
| Hackathons.FilterSubseq | src/hooks/useHackathons.ts:82-112 | the visible list keeps the collection's order and invents nothing |
| Hackathons.FilterNoCriteria | src/hooks/useHackathons.ts:36-38 | with the initial selectors ("all", no date, no term) the whole collection is visible |
| Hackathons.FilterIdempotent | src/pages/Dashboard.tsx:87-116 | filtering the visible list again under the same selectors changes nothing |
| Hackathons.FilterAppend | src/pages/Index.tsx:75-104 | appending a record to the collection appends it to the visible list exactly when it passes |
| Hackathons.BasicWithinExtended | src/hooks/useHackathons.ts:99-108 | the hook's five-field search shows everything the pages' three-field search shows, in the same order |
| Hackathons.RemoveId | src/pages/Dashboard.tsx:173 | `filter(h => h.id !== id)` leaves exactly the records of the collection whose id differs |
| Hackathons.RemoveIdSpec | src/pages/Index.tsx:123 | removal by id keeps the collection's order, and keeps every copy of each record with another id and no copy of a record with that id |
| Hackathons.FilterRemoveId | src/hooks/useHackathons.ts:66-67 | removing an id from the visible list gives the same list as refiltering the collection without that id |
| Seqs.Keep | src/hooks/useHackathons.ts:86-88 | `Array.filter`: the kept elements are exactly the elements that satisfy the predicate, and there are no more of them than inputs |
| Seqs.KeepMultiset | src/hooks/useHackathons.ts:86-88 | `Array.filter` keeps every copy of an element that satisfies the predicate and no copy of one that does not |
| Seqs.KeepSubseq | src/hooks/useHackathons.ts:86-88 | `Array.filter` keeps a subsequence of its input |
| Strings.Lower | src/hooks/useHackathons.ts:98 | `toLowerCase` maps every character pointwise and keeps the length |
| Strings.LowerIdempotent | src/hooks/useHackathons.ts:98-101 | lower-casing twice is lower-casing once, and leaves no upper-case letter |
| Strings.IncludesChar | src/components/dashboard/AddHackathonDialog.tsx:71 | `includes` of a one-character string is membership of that character |
| Strings.TrimSpec | src/components/dashboard/AddHackathonDialog.tsx:106 | `trim` returns a contiguous piece of its input, cuts only white space, and leaves none at either end |
| Strings.JoinSplit | src/components/dashboard/AddHackathonDialog.tsx:106 | joining the pieces of `split(",")` with "," gives the original text back |
| Strings.SplitPieces | src/components/dashboard/AddHackathonDialog.tsx:106 | `split(",")` gives one more piece than there are commas, and no piece holds a comma |
| Strings.SplitJoin | src/components/dashboard/AddHackathonDialog.tsx:106 | splitting comma-free pieces joined with "," gives those pieces back |
| ListState.HackathonList.constructor | src/hooks/useHackathons.ts:33-38 | both lists start empty, loading, with the initial selectors |
| ListState.HackathonList.Refilter | src/pages/Index.tsx:75-104 | the filter effect makes the visible list the filter of the collection under the current selectors |
| ListState.HackathonList.EditDraft | src/pages/Dashboard.tsx:251-285 | an input's `onChange` sets the page's create form to the edited form |
| ListState.HackathonList.SetCriteria | src/hooks/useHackathons.ts:82-112 | changing a selector recomputes the visible list as the filter of the collection |
| ListState.HackathonList.FetchAll | src/hooks/useHackathons.ts:40-57 | success replaces both lists with the fetched records; failure keeps both; loading ends either way |
| ListState.HackathonList.FetchRows | src/pages/Dashboard.tsx:63-80 | success replaces the collection with the rows (`null` as none); an error keeps both lists; loading ends either way |
| ListState.HackathonList.DeleteFound | src/hooks/useHackathons.ts:59-80 | a found delete removes the id from both lists; "not found" or an error changes nothing |
| ListState.HackathonList.DeleteRow | src/pages/Dashboard.tsx:164-185 | a successful delete removes the id from the collection and the visible list follows; an error changes nothing |
| ListState.HackathonList.DeleteLocal | src/pages/Index.tsx:122-129 | the local delete removes the id from the collection and the visible list follows |
| ListState.HackathonList.Seed | src/pages/Index.tsx:47-73 | the timer installs the two sample records and ends loading |
| ListState.HackathonList.AppendLocal | src/pages/Index.tsx:106-120 | one record is appended with id `length + 1`, no participants, status "upcoming" and the form's fields; earlier records are unchanged; the visible list gains it only if it passes; the form is not reset |
| ListState.HackathonList.InsertThenRefetch | src/pages/Dashboard.tsx:118-162 | no user: nothing is sent; a failed insert changes nothing; success replaces the collection with the refetched rows (`null` as none) and resets the form |
| IndexScenarios.SeedOngoing | src/pages/Index.tsx:49-70 | under status "ongoing" only the seeded record "2" is visible |
| IndexScenarios.SeedChain | src/pages/Index.tsx:62 | the search "chain" keeps record "2", whose name holds it inside a word |
| IndexScenarios.LocalIdsCanRepeat | src/pages/Index.tsx:108 | append, delete "1", append again: both appended records get id 3 |
| AddHackathon.MissingSpec | src/components/dashboard/AddHackathonDialog.tsx:54-60 | the missing fields keep the required order, are exactly the required fields whose value is empty, and are none iff all ten are filled |
| AddHackathon.Validate | src/components/dashboard/AddHackathonDialog.tsx:53-81 | missing fields are reported iff some required field is empty; otherwise the email is rejected iff it has no "@"; otherwise the form is accepted |
| AddHackathon.ValidateForm | src/components/dashboard/AddHackathonDialog.tsx:53-81 | true iff all ten required fields are filled and the coordinator email holds "@" |
| AddHackathon.OptionalFieldsIgnored | src/components/dashboard/AddHackathonDialog.tsx:54-58 | skill level, team sizes, prize pool and technologies never change the verdict |
| AddHackathon.DefaultFormRejected | src/components/dashboard/AddHackathonDialog.tsx:35-51 | the initial form is rejected with all ten required fields missing |
| AddHackathon.ParseTechnologies | src/components/dashboard/AddHackathonDialog.tsx:106 | every tag is non-empty, has no white space at either end and no comma; there are at most one more tags than commas; empty text gives no tags |
| AddHackathon.ParseKeepsOrder | src/components/dashboard/AddHackathonDialog.tsx:106 | the tags keep the order of the trimmed pieces, and each non-empty trimmed piece occurs among the tags exactly as often as among the pieces |
| AddHackathon.ParseJoinParse | src/components/dashboard/AddHackathonDialog.tsx:106 | parsing the tags joined with "," gives the same tags |
| AddHackathon.Payload | src/components/dashboard/AddHackathonDialog.tsx:90-107 | the inserted row is created by the signed-in user, and every technology in it is a well-formed tag |
| AddHackathon.AddHackathonDialog.constructor | src/components/dashboard/AddHackathonDialog.tsx:35-51 | the dialog's form starts as the default form |
| AddHackathon.AddHackathonDialog.Edit | src/components/dashboard/AddHackathonDialog.tsx:158-285 | an input's `onChange` sets the form to the edited form |
| AddHackathon.AddHackathonDialog.HandleFormSubmit | src/components/dashboard/AddHackathonDialog.tsx:83-136 | a row is sent iff the form is valid and a user is signed in; success is reported iff the insert also succeeds, and only then is the form reset to its defaults |

## Left out

- Network, database and authentication calls (Mongoose, Supabase, `getUser`) are not modelled as code. Their outcomes are method parameters.
- Toasts, `console.error`, routing, the dialog's `open` flag, the notifications list and all rendering are left out: they show or navigate, and hold no state the lists depend on.
- `selectedSkillLevel` is held by the Dashboard and Index pages but never used by their filters, so it is not modelled.
- The hook's mapping of fetched documents (`doc.toObject()` with `id` from `_id`) is left out. `FetchAll` takes the mapped records.
- FetchAll and the Extended search fields: the model takes the hook's records as `HackathonType` declares them. That means a string `date` and optional `status`, `college_name` and `technologies`. The Mongoose schema behind the hook (src/models/Hackathon.ts:17) stores `date` as a `Date` object, and `===` never equates that object with the date selector's string. It also has no `status`, `college_name` or `technologies` fields. So, with that back end, any date or status selector empties the hook's visible list, and the extended fields never match. The model does not capture that: in it, a string date can equal the selector.
- Sorting by `date` or `created_at` is done by the query. The model takes the rows in the order given.
- The Index page's one-second `setTimeout` is modelled as the `Seed` call, without timing.
- `toLowerCase` is modelled for ASCII letters only. Full Unicode case mapping is not part of this model.
- `parseInt` and `parseFloat` on the numeric form fields are left out. `InsertRow` and `InsertPayload` carry those fields as the entered text.
- The "Missing Fields" toast lists the missing keys joined with ", ". The model returns the keys in `Verdict.MissingFields`, but not that message text.
- React's asynchronous batching of state updates is not modelled. Each operation is one atomic step followed by the filter effect.
- IndexScenarios.SeedChain: it leaves open whether seeded record "1" matches "chain". Its long description is beyond what the verifier evaluates character by character. Reading the text, it does not match, so only record "2" is shown.
- Comments, users, the details page and the remaining pages are not part of this model.
