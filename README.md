# Link shortener front end, modelled in Dafny

This project models the client side of a link shortener. A signed-in user keeps a
table of short links, each with an original URL, an alias, a visit count and two
timestamps. The user can create, edit and delete links, and sees a dashboard of
totals and a six-month chart. The model covers:

- the data layer over the remote `links` table (`src/lib/links.ts`): alias
  generation, create, read, update, delete and the alias-availability query, with
  the remote's failures as inputs;
- the dashboard (`src/views/dashboard-view.tsx`): the statistics computed after a
  fetch, the five most recent links, and the month-by-month chart;
- the links page (`src/views/link-index-view.tsx`): its column definitions, the
  fetch, the delete flow, and the list updates it applies after a create, an edit
  or a delete;
- the create and edit dialogs (`src/components/link-create-form.tsx`,
  `src/components/link-edit-form.tsx`): their alias rules, the request each sends,
  how a failure becomes a toast, and the edit dialog's reset when its link changes;
- the sign-up form (`src/components/register-form.tsx`): its schema issues, the
  message each field shows, and the three outcomes of a submission.

Modules:

- `Types` holds the shared values.
- `Links` holds the data layer. Its class `LinkStore` stands for the rows the
  session can see and the signed-in user.
- `Dashboard` holds the dashboard.
- `LinkIndex` holds the links page.
- `FormRules` holds what the two link dialogs share.
- `LinkCreateForm`, `LinkEditForm` and `RegisterForm` hold the three forms.

How outside effects are represented:

- A remote call's failure is a parameter. It is an `Option<Thrown>`, or a `Reply`
  for the queries, which can also return null data.
- `Math.random()` is a sequence of draws.
- The current time is an `Instant` parameter, reduced to its year, month and
  position within the month.
- The outcome of the email format check is a boolean parameter.

Toasts are recorded as a sequence of `SuccessToast` and `ErrorToast` values.
Navigation is recorded as a location string.

What the code does, and does not do, around aliases and missing rows:

- The create and edit forms never call `isAliasAvailable`. No alias is checked
  before a write.
- The data layer defines no error of its own for a duplicate alias. A failed
  insert or update is rethrown as the client library returned it. The forms show
  the alias-taken text only for a thrown `Error` whose message contains
  "duplicate" or "unique"; any other `Error` shows its own message, and anything
  else thrown shows the form's fallback text.
- `getLinkById` uses `.single()`, so a missing id is thrown as an error, not
  returned as null. `updateLink` also ends in `.single()`, so updating a missing
  id throws too. The value thrown is whatever the client library rejects
  `.single()` with, an input of the model (`noRow`).
- A generated alias that happens to collide fails like a typed one. When the
  client library rejects with an `Error` instance, the user then reads "This alias
  is already taken. Please choose another." although no alias was typed.

## Model

| member | source | states |
|---|---|---|
| Links.AliasFrom | src/lib/links.ts:6-13 | a generated alias has at most one character per draw, and every character comes from the 36-character alphabet |
| Links.AliasFromExact | src/lib/links.ts:9-11 | with every draw inside the alphabet, the alias has exactly one character per draw: the one the draw indexes |
| Links.GenerateAlias | src/lib/links.ts:6-13 | the loop builds the alias of the first `length` draws (none for a length below one); with in-range draws its length is exactly `length`, and only alphabet characters occur |
| Links.ChooseAlias | src/lib/links.ts:51 | a truthy supplied alias is kept, an absent or empty one is replaced by the generated one; an empty result means the generated alias was empty |
| Links.NewLinkPayload | src/lib/links.ts:53-60 | the inserted object carries the user's id, the URL, the chosen alias and a visit count of 0 |
| Links.InsertedRow | src/lib/links.ts:53-65 | the row the insert returns carries the payload's owner, URL, alias and visit count, the id the table assigns, and both timestamps at the time of the insert |
| Links.ApplyUpdate | src/lib/links.ts:78-86 | an update writes the supplied URL and alias, keeps omitted ones, stamps `updated_at`, and keeps id, owner, visits and creation time |
| Links.UpdatePayloadOf | src/lib/links.ts:80-83 | the update object stamps `updated_at` with the time of the call, writes exactly the supplied fields, and with no field supplied changes nothing but `updated_at` |
| Links.Select | src/lib/links.ts:28-32 | a filtered select returns exactly the rows meeting every filter, never more rows than the table holds |
| Links.Remaining | src/lib/links.ts:93-94 | a delete leaves exactly the rows that do not meet its filter |
| Links.UpdateWhere | src/lib/links.ts:78-84 | an update keeps the number of rows and every row's id in place |
| Links.InsertNewestFirstPermutes | src/lib/links.ts:17-20 | inserting a row into the ordering adds that row and loses none |
| Links.InsertNewestFirstSorted | src/lib/links.ts:17-20 | inserting a row into a newest-first sequence keeps it newest first |
| Links.OrderNewestFirst | src/lib/links.ts:20 | `order("created_at", { ascending: false })` returns the same rows, newest first |
| Links.Listing | src/lib/links.ts:16-24 | `getLinks` throws exactly when the query fails, rethrowing its error; null data gives an empty list; otherwise the session's rows, newest first |
| Links.SelectByIdCount | src/lib/links.ts:27-35 | with distinct ids, selecting by id gives one row when the id exists and none otherwise, which is what `.single()` tells apart |
| Links.RemainingKeepsIdsDistinct | src/lib/links.ts:93-97 | a delete keeps the ids distinct |
| Links.DeletedIdIsGone | src/lib/links.ts:93-97 | after deleting an id, no row has it |
| Links.InsertedAliasIsTaken | src/lib/links.ts:100-114 | after an insert, its alias is taken for every exclusion except its own id |
| Links.LinkStore.constructor | src/lib/links.ts:1-3 | the store starts as the given session rows, with distinct ids, and the given signed-in user |
| Links.LinkStore.GetLinks | src/lib/links.ts:16-24 | the call settles as `Listing` of the session's rows |
| Links.LinkStore.GetLinkById | src/lib/links.ts:27-35 | a failing query rethrows; a present id yields a row with that id; a missing id throws what the client library rejects `.single()` with |
| Links.LinkStore.CreateLink | src/lib/links.ts:44-66 | signed out: throws "User not authenticated" and writes nothing; a failed insert is rethrown and writes nothing; otherwise appends and returns the row with the chosen alias, 0 visits and both timestamps now |
| Links.LinkStore.UpdateLink | src/lib/links.ts:74-90 | a failed update is rethrown; a missing id throws what the client library rejects `.single()` with and writes nothing; otherwise the matching row is updated and returned as updated |
| Links.LinkStore.DeleteLink | src/lib/links.ts:93-97 | a failed delete is rethrown and removes nothing; otherwise exactly the rows with the id are removed |
| Links.LinkStore.IsAliasAvailable | src/lib/links.ts:100-114 | the id exclusion applies only for a truthy id; a failed query is rethrown; null data is available; otherwise available exactly when no other row has the alias |
| Dashboard.LinksInMonth | src/views/dashboard-view.tsx:45-51 | the month filter keeps exactly the fetched links created in the current month and year |
| Dashboard.TotalVisits | src/views/dashboard-view.tsx:38-41 | with non-negative visit counts the total is non-negative and at least every single link's count |
| Dashboard.Recent | src/views/dashboard-view.tsx:62 | `slice(0, 5)` keeps the first five links, or all of them when there are fewer |
| Dashboard.ComputeStats | src/views/dashboard-view.tsx:36-57 | the stored statistics count all fetched links, count the current month's links (never more than all), and total non-negative visits to a non-negative number |
| Dashboard.TotalVisitsAppend | src/views/dashboard-view.tsx:38-41 | the visit total of two lists is the sum of their totals |
| Dashboard.TotalVisitsIgnoresOrder | src/views/dashboard-view.tsx:38-41 | the visit total does not depend on the order of the links |
| Dashboard.LinksInMonthIgnoresOrder | src/views/dashboard-view.tsx:45-51 | how many links fall in the month does not depend on their order |
| Dashboard.StatsIgnoreOrder | src/views/dashboard-view.tsx:36-57 | the three statistics depend only on which links were fetched, not on their order |
| Dashboard.RecentAreNewest | src/views/dashboard-view.tsx:62 | on a newest-first list, the recent links are its first five (or all of it), and no other link is newer than any of them |
| Dashboard.MonthsBefore | src/views/dashboard-view.tsx:81 | `new Date(year, month - i, 1)` is the month `i` months back, with months before January rolling into the previous year |
| Dashboard.MonthIndexInjective | src/views/dashboard-view.tsx:82-86 | distinct months give distinct keys, so the six initialised buckets are six |
| Dashboard.ChartSpec | src/views/dashboard-view.tsx:75-106 | the chart has six buckets, oldest first, consecutive months ending with the current month |
| Dashboard.GenerateChartData | src/views/dashboard-view.tsx:75-107 | the two loops over the month map produce the six buckets with each month's link count and visit sum |
| Dashboard.InitMonths | src/views/dashboard-view.tsx:79-87 | the first loop creates one zeroed entry for each of the six months, keyed in order from five months back to the current month |
| Dashboard.TallyLinks | src/views/dashboard-view.tsx:89-100 | the second loop leaves each month's entry holding the number of links created in it and their visits; links of other months are skipped |
| Dashboard.CurrentBucketIsThisMonth | src/views/dashboard-view.tsx:44-99 | the chart's last bucket counts the same links as the "this month" statistic |
| Dashboard.CountMatchesFilter | src/views/dashboard-view.tsx:90-100 | a bucket's link count equals the size of the month filter |
| Dashboard.CountIgnoresOrder | src/views/dashboard-view.tsx:90-100 | a bucket's link count does not depend on the order of the links |
| Dashboard.CountAppend | src/views/dashboard-view.tsx:90-100 | bucket counts add up over concatenated lists |
| Dashboard.MatchesOneBucket | src/views/dashboard-view.tsx:80-87 | a month matches one bucket when it lies in the six-month window, and none otherwise |
| Dashboard.WindowLinksTotal | src/views/dashboard-view.tsx:90-100 | the six bucket counts add up to the links created inside the window |
| Dashboard.WindowVisitsTotal | src/views/dashboard-view.tsx:90-100 | the six visit sums add up to the visits of the links created inside the window |
| Dashboard.ChartCoversWindow | src/views/dashboard-view.tsx:75-107 | together the buckets hold exactly the links, and the visits, of the window: none counted twice, none outside it |
| Dashboard.WindowTallyBounded | src/views/dashboard-view.tsx:90-100 | the chart never counts more links than were fetched |
| Dashboard.DashboardState.constructor | src/views/dashboard-view.tsx:23-30 | the dashboard starts with zero statistics, no links, and loading |
| Dashboard.DashboardState.FetchData | src/views/dashboard-view.tsx:32-68 | on success it stores the statistics, all links and the first five; on failure it keeps what was shown; either way it stops loading |
| Dashboard.FailedFirstFetch | src/views/dashboard-view.tsx:63-67 | a failed first fetch leaves zero statistics and loading finished |
| LinkIndex.RemoveById | src/views/link-index-view.tsx:255 | the filter keeps exactly the links with another id |
| LinkIndex.Prepend | src/views/link-index-view.tsx:303 | the created link goes first and the previous list follows unchanged |
| LinkIndex.ReplaceById | src/views/link-index-view.tsx:417-421 | an edit keeps the list's length and ids in place, replaces the entries with the edited id and keeps every other entry |
| LinkIndex.RemoveByIdKeepsOrder | src/views/link-index-view.tsx:255 | the filter keeps the remaining links in their order |
| LinkIndex.RemoveAbsentId | src/views/link-index-view.tsx:255 | filtering out an id no link has changes nothing |
| LinkIndex.DeleteUndoesCreate | src/views/link-index-view.tsx:302-304 | deleting a just-created link (with a new id) restores the list from before the create |
| LinkIndex.RemoveByIdMatchesStoreDelete | src/views/link-index-view.tsx:252-255 | the page's filter leaves exactly the rows the table's delete leaves, in the same order |
| LinkIndex.DeleteAfterEdit | src/views/link-index-view.tsx:416-422 | editing a link and then deleting it leaves what deleting it alone leaves |
| LinkIndex.Columns | src/views/link-index-view.tsx:58-157 | the page declares five columns in display order; only the fifth is the actions column, which cannot be hidden and renders nothing of its own |
| LinkIndex.GetColumns | src/views/link-index-view.tsx:160-222 | the same columns in the same order; only the `actions` column changes, and only its cell, which becomes the menu with the two handlers |
| LinkIndex.PageColumns | src/views/link-index-view.tsx:58-157 | on the page's five columns, the first four are untouched and the fifth is the non-hideable actions menu |
| LinkIndex.LinkIndexState.constructor | src/views/link-index-view.tsx:224-230 | the page starts with no links, loading, no dialog open and no delete running |
| LinkIndex.LinkIndexState.FetchLinks | src/views/link-index-view.tsx:232-242 | on success the list becomes the fetched links; on failure the list stays and "Failed to load links" is shown; either way loading stops |
| LinkIndex.LinkIndexState.Handle | src/views/link-index-view.tsx:265-268 | the edit handler opens the edit dialog on the link, the delete handler opens the delete dialog on it |
| LinkIndex.LinkIndexState.EditOpenChange | src/views/link-index-view.tsx:415 | closing the edit dialog forgets its link; opening changes nothing |
| LinkIndex.LinkIndexState.DeleteOpenChange | src/views/link-index-view.tsx:429 | closing the delete dialog forgets its link; opening changes nothing |
| LinkIndex.LinkIndexState.OnCreated | src/views/link-index-view.tsx:302-304 | the created link goes first, ahead of the previous list |
| LinkIndex.LinkIndexState.OnUpdated | src/views/link-index-view.tsx:416-422 | the entries with the edited id are replaced and the list keeps its length |
| LinkIndex.LinkIndexState.HandleDelete | src/views/link-index-view.tsx:248-263 | with no pending link nothing happens; otherwise the table and the list both lose the link and "Link deleted successfully" is shown, or on failure both stay and "Failed to delete link" is shown; the dialog closes and no delete is left running |
| FormRules.MatchesAliasPattern | src/components/link-create-form.tsx:32-35 | the pattern accepts exactly inputs made of letters, digits, `-` and `_`, and the `+` form requires at least one character |
| FormRules.OneOrMoreIsNonEmptyZeroOrMore | src/components/link-edit-form.tsx:32-35 | `+` accepts exactly the non-empty inputs `*` accepts |
| FormRules.IncludesPrefix | src/components/link-create-form.tsx:78-81 | a message includes its own prefixes and the empty string |
| FormRules.MissingCharNotIncluded | src/components/link-create-form.tsx:78-81 | a message lacking a character of a word does not include the word |
| FormRules.Includes | src/components/link-create-form.tsx:78-81 | `String.prototype.includes`: the word occurs in the message at some position, compared character by character (case-sensitive), and the empty word occurs in every message |
| FormRules.ReadsAsDuplicate | src/components/link-create-form.tsx:78-81 | the substring test of both forms' `catch`: the message contains "duplicate" or contains "unique" |
| FormRules.SubmitErrorToast | src/components/link-create-form.tsx:75-90 | a failure always gives an error toast: an `Error` whose message contains "duplicate" or "unique" shows "This alias is already taken. Please choose another.", any other `Error` shows its own message, and a thrown non-`Error` shows the fallback |
| FormRules.DuplicateOrUniqueReadsAsTaken | src/components/link-create-form.tsx:76-84 | any `Error` whose message contains either word, anywhere, shows the alias-taken text |
| FormRules.UniqueViolationReadsAsTaken | src/components/link-create-form.tsx:78-84 | the table's duplicate-key message, when the client library rejects with it as an `Error` instance, is shown as "This alias is already taken. Please choose another." |
| FormRules.NotAuthenticatedShownVerbatim | src/components/link-create-form.tsx:85-87 | "User not authenticated" is shown word for word |
| FormRules.OtherErrorsShownVerbatim | src/components/link-create-form.tsx:85-87 | an error mentioning neither word is shown as it is |
| LinkCreateForm.RequestOf | src/components/link-create-form.tsx:66-69 | the URL is sent as typed, and the alias only when truthy: an empty alias is sent as undefined |
| LinkCreateForm.AliasAccepted | src/components/link-create-form.tsx:30-37 | the schema accepts an alias exactly when it is absent or made only of letters, digits, `-` and `_` (the empty literal adds nothing the `*` pattern does not accept) |
| LinkCreateForm.AlphabetIsAliasChars | src/components/link-create-form.tsx:32-35 | every character a generated alias can hold belongs to the form's alias class |
| LinkCreateForm.StoredAlias | src/components/link-create-form.tsx:62-69 | an empty alias stores a generated one, a typed alias is stored as typed, and the stored alias satisfies the form's own rule |
| LinkCreateForm.CreateFormState.constructor | src/components/link-create-form.tsx:48-57 | the dialog starts closed, not loading, with empty fields |
| LinkCreateForm.CreateFormState.OpenChange | src/components/link-create-form.tsx:97 | the dialog opens and closes as asked |
| LinkCreateForm.CreateFormState.OnSubmit | src/components/link-create-form.tsx:62-94 | on success the row is inserted and returned, "Link created successfully!" is shown, the dialog closes and the fields reset; on failure nothing is written, the classified error is shown and the dialog stays; loading ends either way |
| LinkEditForm.AliasIssues | src/components/link-edit-form.tsx:29-35 | no issue exactly when the `+` pattern matches; an empty alias reports "Alias is required" first; any other failure is the pattern's message |
| LinkEditForm.AliasAccepted | src/components/link-edit-form.tsx:29-35 | the schema accepts an alias exactly when it is non-empty and made only of letters, digits, `-` and `_` |
| LinkEditForm.ValuesOf | src/components/link-edit-form.tsx:57-68 | the fields are filled with the link's URL and alias, and submitting them as they are asks to write those same two values |
| LinkEditForm.EditRuleIsCreateRuleWithoutBlank | src/components/link-edit-form.tsx:29-35 | the edit rule accepts exactly the non-empty aliases the create rule accepts |
| LinkEditForm.CreatedLinkIsEditable | src/components/link-edit-form.tsx:27-36 | every alias stored through the create dialog (with in-range draws) passes the edit dialog's rule |
| LinkEditForm.RequestOf | src/components/link-edit-form.tsx:78-81 | both fields are always sent |
| LinkEditForm.UnchangedSubmitOnlyTouchesUpdatedAt | src/components/link-edit-form.tsx:63-81 | submitting the fields as the reset filled them changes only `updated_at` |
| LinkEditForm.EditFormState.constructor | src/components/link-edit-form.tsx:53-61 | the fields start as the link's URL and alias |
| LinkEditForm.EditFormState.ResetForLink | src/components/link-edit-form.tsx:63-69 | when the link changes, the fields show the new link |
| LinkEditForm.EditFormState.OnSubmit | src/components/link-edit-form.tsx:74-104 | on success the form's link is updated in the table and returned with that id, "Link updated successfully!" is shown and closing is requested; on failure or a missing id nothing is written, the classified error is shown and the dialog stays; loading ends |
| RegisterForm.Issues | src/components/register-form.tsx:28-44 | no issue exactly when the name has 2-50 characters, the email is valid, the password has 6-72 characters and the confirmation matches; a mismatch is reported, only on `confirmPassword` |
| RegisterForm.Accepted | src/components/register-form.tsx:28-44 | the values go on to `onSubmit` exactly when the name has 2-50 characters, the email is valid, the password has 6-72 characters and the confirmation matches |
| RegisterForm.FirstError | src/components/register-form.tsx:104 | the message under a field is that of the first issue on its path, or none when no issue names it |
| RegisterForm.FirstErrorAppend | src/components/register-form.tsx:104 | the first issue of two concatenated lists comes from the first list when it has one |
| RegisterForm.LengthFirstError | src/components/register-form.tsx:30-38 | a length check reports only on its field, first the bound that fails |
| RegisterForm.IssuesFirstError | src/components/register-form.tsx:28-44 | a field's message comes from the first of the schema's checks that reports on it |
| RegisterForm.FieldMessages | src/components/register-form.tsx:28-44 | each field shows its first failing check's message (too short before too long), and nothing when its checks pass |
| RegisterForm.RegisterFormState.constructor | src/components/register-form.tsx:49-60 | the form starts not loading, with no errors and no toasts |
| RegisterForm.RegisterFormState.OnSubmit | src/components/register-form.tsx:67-93 | sends email, password and the name as `full_name`; an error reply shows its message and stays; success shows the welcome and goes to `/dashboard`; a rejection shows the generic failure; loading ends |
| RegisterForm.RegisterFormState.HandleSubmit | src/components/register-form.tsx:67-104 | invalid values keep their issues for display and send nothing; valid values clear the errors and submit, and the reply then decides the outcome: success shows the welcome and goes to `/dashboard`, an error reply shows its message and stays, a rejection shows the generic failure and stays |

## Left out

- Supabase itself is not modelled: the SDK, row-level security and the database's
  unique index on `alias`. The session's visible rows are the store's `rows`. A
  rejection, uniqueness violations included, is an input of the call, so the store
  does not enforce alias uniqueness itself.
- Network, timing and concurrency are not modelled. Each awaited call settles at
  once, and two requests never interleave.
- `Math.random()` is replaced by the draws. `Date`, time zones, ISO strings and
  `toLocaleDateString` are replaced by `Instant` and `YearMonth`. A chart key in the
  source is an "en-US" short month and year, which is distinct for distinct months,
  so keying by `YearMonth` keeps the same buckets.
- The dashboard reads the clock twice, once in `fetchData` and once in
  `generateChartData`. The model gives each its own `now`;
  `Dashboard.CurrentBucketIsThisMonth` relates the two when they fall in the same
  month.
- PostgreSQL does not fix the order of links with equal `created_at`. The ordering
  is modelled by one newest-first insertion, and every contract states only
  "newest first and the same rows", which any tie order meets.
- Whether the client library rejects a call with an `Error` instance or with a
  plain error object is outside this model. Every rejection, that of `.single()`
  on a missing row included, is an input `Thrown` that may be either, so the forms'
  `instanceof Error` test can go both ways. `FormRules.UniqueViolationReadsAsTaken`
  states what the user reads only for the `Error` case.
- The zod URL check (`z.string().url`) and the email check (`z.email`) are not
  modelled. The URL is unconstrained, and the email check is a boolean input of
  `RegisterForm.Issues`.
- String lengths count Dafny characters. zod counts UTF-16 code units, so the two
  differ on characters outside the Basic Multilingual Plane.
- LinkCreateForm.CreateFormState.OnSubmit: states the schema's acceptance of the
  alias but not the messages the create schema attaches to a rejected alias, since
  which one a union of an optional pattern and an empty literal reports is zod's
  internal choice.
- LinkCreateForm.CreateFormState.OnSubmit: `onSuccess` is not called from inside
  the method. The created link is returned, and the links page's callback is
  `LinkIndex.LinkIndexState.OnCreated`.
- LinkEditForm.EditFormState.OnSubmit: returns the updated link and a close
  request instead of calling `onSuccess` and `onOpenChange(false)`. These are
  `LinkIndex.LinkIndexState.OnUpdated` and `LinkIndex.LinkIndexState.EditOpenChange`.
- LinkIndex.LinkIndexState.HandleDelete: the `isDeleting` flag is raised while the
  delete is in flight and lowered at the end. Only the final state is stated,
  because nothing observes the flag between the two steps in this model. The same
  holds for `isLoading` in every form's `OnSubmit`.
- The table's sorting, filtering, pagination and column visibility are not
  modelled, because they belong to the table library, not to this code.
- Also not modelled: rendering (JSX, badges, icons, skeletons), the menu's
  "Copy link" (clipboard) and "Open link" (`window.open`) actions, and
  `console.error` logging.
- The login form, the auth hook and guard, routing and the sidebar are not part of
  this model.
