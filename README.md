# Property-management core, modelled in Dafny

This project models the computational core of a small property-management app
written in TypeScript and React. It covers seven pieces:

- **Bank reconciliation** (`Reconciliation`, `StatementRows`). Bank statement
  lines are paired one-to-one with accounting lines, greedily and first-fit.
  Two lines pair when their amounts are strictly equal (`===`, so NaN matches
  nothing) and their dates are equal. `Reconciled` is the specification, one
  bank line at a time. `Reconcile` is the source's loop over a pool that it
  splices in place. Both readers map a CSV row to an operation by copying the
  date and label and handing the amount text, with its *first* comma turned
  into a dot, to `parseFloat`. `parseFloat` is a function parameter. The two
  copies of `reconcile`, in `scripts/bankReconciliation.ts` and
  `src/components/RapprochementBancaire.tsx`, are identical statement for
  statement, so one method models both.
- **Rent-revision letter** (`ReajustementLetter`). `getLetterHtml` makes eight
  global literal replacements in a fixed order. The lease-start handler
  records its input and recomputes the anniversary date only for a
  `YYYY-MM-DD` input. The rent recalculation is guarded by truthiness tests.
  The editor is a class holding the component's state fields.
- **Lease wizard** (`LeaseWizard`). A five-step counter with clamped moves,
  which buttons each step shows, when the submit button is disabled, and the
  tenant list filtered by the selected property. The filter is modelled as
  written and corrected (see Findings).
- **Property ids** (`Biens`). `handleAdd` appends a property with id
  `max(ids) + 1`, or 1 for an empty list, and closes the form.
- **Receipt file name** (`Quittance`). The name is
  `quittance-<locataire>-<periode>.pdf`, with every JavaScript `\s` character
  of both fields replaced by `_`. The upload and the download link build the
  same name.
- **Dedup by id** (`ParametrageLoyers`). The leases' embedded properties and
  tenants go through a JavaScript `Map`, which is modelled as a list of
  entries in insertion order. Whenever some lease lacks the relation, the
  `Map` constructor throws, and this is modelled as a `Failure`.
- **Shared vocabulary.** `Wrappers` (Option, Result), `JsNumbers` (numbers
  with NaN, `===` and truthiness) and `Sequences` (order-preserving
  subsequences, selection, `splice`, `indexOf`/`lastIndexOf`).

Sequences are values in Dafny. The reconciliation's copy `[...accountingOps]`
therefore leaves the caller's list untouched by construction.

## Model

| member | source | states |
|---|---|---|
| JsNumbers.StrictEqualsFacts | scripts/bankReconciliation.ts:38-39 | `===` on amounts (`StrictEquals`) is symmetric, reflexive except on NaN, and never holds with a NaN on either side; `Truthy` is read through IrlText and HandleCalculerLoyer below |
| Reconciliation.FirstMatch | scripts/bankReconciliation.ts:36-40 | the result is -1 exactly when no pool entry pairs with the bank line; otherwise it is the earliest pairing entry |
| Reconciliation.Reconcile | scripts/bankReconciliation.ts:30-50 | the loop with its in-place splice returns exactly the three lists of the specification `Reconciled` (which the lemmas below describe); every bank line lands in exactly one of matched and unmatchedBank; each hit consumes exactly one accounting line |
| Reconciliation.Partition | src/components/RapprochementBancaire.tsx:39-51 | `matched + unmatchedBank` has as many lines as the bank input, and `matched + unmatchedAccounting` as many as the accounting input |
| Reconciliation.Interleave | scripts/bankReconciliation.ts:35-47 | `matched` is the bank lines that found a partner at their turn and `unmatchedBank` those that did not, each in input order, so together they interleave back to the bank input |
| Reconciliation.HitIff | scripts/bankReconciliation.ts:36-41 | a bank line is matched iff the pool at its turn holds an entry of equal amount and date, in both directions (the label plays no part) |
| Reconciliation.Turn | scripts/bankReconciliation.ts:36-44 | at turn k the bank line is a hit exactly when `findIndex` on the current pool returns a position, and the next pool is the current one after that turn's splice |
| Reconciliation.FirstMatchFound | scripts/bankReconciliation.ts:36-41 | `findIndex` returns a position iff some pool entry pairs with the bank line |
| Reconciliation.PoolAtIsPrefixRun | scripts/bankReconciliation.ts:33-47 | the pool seen at turn k is what reconciling the first k bank lines leaves unmatched |
| Reconciliation.BankOrderPreserved | scripts/bankReconciliation.ts:42-45 | `matched` and `unmatchedBank` are order-preserving subsequences of the bank input |
| Reconciliation.BankLinesPartitioned | scripts/bankReconciliation.ts:42-46 | `matched` and `unmatchedBank` together hold exactly the bank lines, as a multiset |
| Reconciliation.AccountingOrderPreserved | scripts/bankReconciliation.ts:33-43 | `unmatchedAccounting` is an order-preserving subsequence of the accounting input |
| Reconciliation.ConsumedPairs | src/components/RapprochementBancaire.tsx:42-47 | the k-th matched bank line consumed the k-th consumed accounting line, and the two have equal amounts and dates |
| Reconciliation.ConsumedAccounting | src/components/RapprochementBancaire.tsx:45-47 | each accounting line is consumed at most once: the consumed lines plus `unmatchedAccounting` make up the accounting input as a multiset |
| Reconciliation.NaNNeverMatches | scripts/bankReconciliation.ts:21-38 | a bank line with a NaN amount is never matched, and no NaN accounting line is ever consumed |
| Reconciliation.TieBreak | scripts/bankReconciliation.ts:36-43 | a single bank line removes the earliest pairing pool entry, and later duplicates stay in the pool |
| Reconciliation.TieBreakAt | scripts/bankReconciliation.ts:36-44 | at any turn k, a hit splices out the earliest pool entry that pairs with the bank line (no earlier one pairs) and leaves the rest in order; a miss leaves the pool as it was |
| Reconciliation.EmptyInputs | scripts/bankReconciliation.ts:31-35 | with no accounting lines every bank line is unmatched; with no bank lines every accounting line is unmatched |
| Reconciliation.DuplicateTieBreakExample | src/components/RapprochementBancaire.tsx:40-47 | out of two identical accounting lines, one bank line consumes the first |
| Reconciliation.EndToEndExample | src/components/RapprochementBancaire.tsx:34-54 | a rent payment is matched and a bank fee without counterpart stays unmatched |
| Reconciliation.ExactAmountExample | src/components/RapprochementBancaire.tsx:42-43 | amounts 100.00 and 100.01 on the same date do not pair (no tolerance) |
| Sequences.RemoveAt | scripts/bankReconciliation.ts:43 | `splice(i, 1)` shortens the list by one, removes exactly that element (as a multiset), and keeps the elements before and after in place |
| Sequences.IndexOf | scripts/bankReconciliation.ts:21 | the result is -1 exactly when the element is absent; otherwise it is a position holding the element with no earlier one |
| StatementRows.ReplaceFirst | scripts/bankReconciliation.ts:21 | `replace(',', '.')` (NormaliseAmountText) keeps the length and changes only the character at the first comma, which becomes a dot; a text without a comma is unchanged |
| StatementRows.ReplaceFirstCounts | src/components/RapprochementBancaire.tsx:25 | exactly one comma disappears and one dot appears when there is a comma; all later commas are kept |
| StatementRows.DecimalCommaExample | scripts/bankReconciliation.ts:21 | "1234,56" is normalised to "1234.56" |
| StatementRows.LaterCommasKeptExample | src/components/RapprochementBancaire.tsx:25 | "1,234,56" is normalised to "1.234,56" |
| StatementRows.OperationFromRecord | scripts/bankReconciliation.ts:18-22 | date and label are copied unchanged from the CSV record, and the amount is `parseFloat` of the amount text with its first comma turned into a dot |
| StatementRows.OperationFromRow | src/components/RapprochementBancaire.tsx:22-26 | date and label are copied unchanged from the uploaded row; a missing amount is read as `parseFloat("")`, a present one as `parseFloat` of its text with the first comma turned into a dot |
| StatementRows.OperationsFromRows | src/components/RapprochementBancaire.tsx:22-26 | one operation per row, in row order: the k-th has the k-th row's date and label, and its amount is `parseFloat("")` when the row has no amount and `parseFloat` of the comma-normalised text otherwise |
| StatementRows.MissingAmountNeverMatches | src/components/RapprochementBancaire.tsx:25 | a row without an amount becomes a NaN operation (given `parseFloat('')` is NaN), and it is never matched |
| ReajustementLetter.ReplaceAllWithoutOccurrence | src/components/ReajustementLetterEditor.tsx:80-88 | a text in which the placeholder does not occur is returned unchanged by its pass (`ReplaceAll`, the global literal replace, is described by this row and the next three) |
| ReajustementLetter.ReplaceAllAtFirstOccurrence | src/components/ReajustementLetterEditor.tsx:81 | at the leftmost occurrence the placeholder is replaced by its value, the text before it is kept, and the scan resumes right after it |
| ReajustementLetter.ReplaceAllOfPattern | src/components/ReajustementLetterEditor.tsx:88 | a text that is exactly the placeholder becomes exactly the value |
| ReajustementLetter.ReplaceAllIdentity | src/components/ReajustementLetterEditor.tsx:81 | replacing a placeholder by itself changes nothing |
| ReajustementLetter.SubstituteAsChain | src/components/ReajustementLetterEditor.tsx:80-88 | running the list of passes (`Substitute` over `LetterPasses`) is the chain of eight global replacements nom, adresse_bien, date_debut, date_plus_un_an, irl_t, irl_t1, loyer_initial, loyer_nouveau, in that order, each by its own field |
| ReajustementLetter.SubstituteWithoutPlaceholders | src/components/ReajustementLetterEditor.tsx:80-88 | a template in which no pass finds its placeholder is returned unchanged |
| ReajustementLetter.SubstituteOwnPlaceholders | src/components/ReajustementLetterEditor.tsx:80-88 | if every field holds its own placeholder, the template comes back unchanged |
| ReajustementLetter.SubstituteSplit | src/components/ReajustementLetterEditor.tsx:80-88 | running the chain of passes in two batches gives the same letter as running it in one |
| ReajustementLetter.IrlText | src/components/ReajustementLetterEditor.tsx:85-86 | an index that is null, 0 or NaN is shown as ""; any other index is shown as its number text |
| ReajustementLetter.NotContainedAfterStart | src/components/ReajustementLetterEditor.tsx:81-88 | a placeholder can occur only at the start of a text whose only "{{" is there |
| ReajustementLetter.EarlierPlaceholdersAbsentFromLast | src/components/ReajustementLetterEditor.tsx:81-87 | none of the first seven placeholders occurs in "{{loyer_nouveau}}" |
| ReajustementLetter.SubstitutionOrder | src/components/ReajustementLetterEditor.tsx:81-88 | because the order is fixed, a name holding none of the placeholders of passes 2 to 7 leaves "{{nom}}" as that name with each "{{loyer_nouveau}}" in it replaced by the new rent; the last placeholder always becomes the new rent |
| ReajustementLetter.MatchesAnchoredPointwise | src/components/ReajustementLetterEditor.tsx:46 | an anchored fixed-length pattern (`MatchesAnchored`) matches exactly the texts of its length whose characters each lie in their class |
| ReajustementLetter.IsoDateRegex | src/components/ReajustementLetterEditor.tsx:46 | `^\d{4}-\d{2}-\d{2}$` (`IsoDatePattern`) accepts exactly the ten-character texts with digits everywhere except dashes at positions 4 and 7 |
| ReajustementLetter.IsoDateExamples | src/components/ReajustementLetterEditor.tsx:46 | "2024-03-01" is accepted; "2024-3-01", "01/03/2024" and "" are not |
| ReajustementLetter.ReajustementLetterEditor.constructor | src/components/ReajustementLetterEditor.tsx:30-38 | every text field starts empty, both indices start null, and the template starts as the default letter |
| ReajustementLetter.ReajustementLetterEditor.HandleDateDebutChange | src/components/ReajustementLetterEditor.tsx:43-51 | the lease start is always set to the input; the anniversary date changes (to the date one year later) only for a `YYYY-MM-DD` input and is otherwise unchanged |
| ReajustementLetter.ReajustementLetterEditor.HandleCalculerLoyer | src/components/ReajustementLetterEditor.tsx:72-76 | the new rent is unchanged unless the initial rent is non-empty and both indices are truthy (`CanRecalculate`, `Truthy`); in that case it is the revised rent |
| ReajustementLetter.ReajustementLetterEditor.Values | src/components/ReajustementLetterEditor.tsx:81-88 | one value per placeholder |
| ReajustementLetter.ReajustementLetterEditor.LetterHtml | src/components/ReajustementLetterEditor.tsx:79-89 | the letter is the template through the eight global replacements in source order, by nom, adresse, lease start, anniversary, the two indices as IrlText shows them, initial and new rent |
| ReajustementLetter.LetterWithoutPlaceholders | src/components/ReajustementLetterEditor.tsx:79-89 | a template containing none of the eight placeholders is the letter itself, whatever the fields hold |
| LeaseWizard.MoveLaws | src/components/LeaseFormWizard.tsx:101-102 | `Next` and `Back` stay in [0, 4]; Next at 4 stays at 4 and Back at 0 stays at 0; inside the range they step by one and undo each other |
| LeaseWizard.ReplayStaysInRange | src/components/LeaseFormWizard.tsx:30-33 | from any step in [0, 4], any sequence of clicks keeps the step in [0, 4] |
| LeaseWizard.FourNextsReachSubmit | src/components/LeaseFormWizard.test.tsx:73-78 | four clicks on "Suivant" from step 0 reach step 4, where only the submit button is shown |
| LeaseWizard.ButtonRules | src/components/LeaseFormWizard.tsx:258-264 | of `ShowsNext` ("Suivant") and `ShowsSubmit` exactly one holds; `ShowsPrevious` ("Précédent") only strictly between the first and last step; submit only on the last step |
| LeaseWizard.SubmitDisabledRule | src/components/LeaseFormWizard.tsx:98 | `SubmitDisabled`: the submit button is enabled iff neither `submitting` nor the mutation's `isLoading` holds |
| LeaseWizard.LeaseFormWizard.constructor | src/components/LeaseFormWizard.tsx:33-34 | the wizard starts at step 0, not submitting |
| LeaseWizard.LeaseFormWizard.OnNext | src/components/LeaseFormWizard.tsx:101 | the step becomes `min(step + 1, 4)` and stays in range |
| LeaseWizard.LeaseFormWizard.OnBack | src/components/LeaseFormWizard.tsx:102 | the step becomes `max(step - 1, 0)` and stays in range |
| LeaseWizard.LeaseFormWizard.BeginSubmit | src/components/LeaseFormWizard.tsx:85-86 | once the form is submitted, the button is disabled whatever the mutation state |
| LeaseWizard.LeaseFormWizard.EndSubmit | src/components/LeaseFormWizard.tsx:92-94 | after the mutation settles, the button is disabled exactly while the mutation reports loading |
| LeaseWizard.FilteredTenantsAsWritten | src/components/LeaseFormWizard.tsx:50-51 | as written: a tenant is kept, with all its copies, exactly when its property id strictly equals the form's value |
| LeaseWizard.FilteredTenantsInOrder | src/components/LeaseFormWizard.tsx:51 | the kept tenants are in their original order |
| LeaseWizard.PickedPropertyShowsNoTenant | src/components/LeaseFormWizard.tsx:124-130 | as written: once the form holds the text of a picked option, no tenant is kept |
| LeaseWizard.DecimalText | src/components/LeaseFormWizard.tsx:130 | an option's value is the non-empty decimal text of the id, digits only |
| LeaseWizard.DecimalTextInjective | src/components/LeaseFormWizard.tsx:130 | distinct ids have distinct option texts |
| LeaseWizard.FilteredTenants | src/components/LeaseFormWizard.tsx:51 | corrected: a tenant is kept, with all its copies, exactly when the decimal text of its property id equals the text of the form's value |
| LeaseWizard.FilteredTenantsSelectsProperty | src/components/LeaseFormWizard.tsx:37-51 | corrected: the picked option's text and the numeric default select the same tenants, namely those whose property id equals the id |
| Biens.MaxId | src/components/Biens.tsx:15 | `Math.max` of the ids is at least every id and is one of them |
| Biens.NewId | src/components/Biens.tsx:15 | the new id is 1 for an empty list; otherwise it exceeds every existing id and is some id + 1 (the maximum + 1) |
| Biens.AddKeepsIdsIncreasing | src/components/Biens.tsx:15-16 | an add (`Added`) keeps the ids strictly increasing along the list |
| Biens.IdsAreConsecutive | src/components/Biens.tsx:15-16 | from ids 1..n, any series of adds (`AddedAll`) grows the list by one per add and yields ids exactly 1, 2, 3, ... |
| Biens.FromEmptyIdsIncreasing | src/components/Biens.tsx:6-16 | starting from the empty list, the ids stay pairwise distinct and strictly increasing after any series of adds |
| Biens.BiensPage.constructor | src/components/Biens.tsx:6-7 | the page starts with no property and the form closed |
| Biens.BiensPage.OpenForm | src/components/Biens.tsx:43 | the button opens the form |
| Biens.BiensPage.HandleAdd | src/components/Biens.tsx:10-19 | the list is the old list with one property appended that carries the new id and the submitted titre and ville (earlier entries unchanged), ids stay increasing, and the form is closed |
| Quittance.Underscored | src/components/QuittanceEditor.tsx:140 | the length is kept, each `\s` character (`IsJsWhitespace`, the JavaScript whitespace set) becomes `_`, and every other character stays in place |
| Quittance.FileNameShape | src/components/QuittanceEditor.tsx:140 | `FileName`, used for the upload (:140) and the download (:167), starts with "quittance-" and ends with ".pdf"; between them are the underscored tenant, a dash and the underscored period; its length, counted in characters (not in the UTF-16 code units of JavaScript's `.length`), is the fields' total length + 15 |
| Quittance.SegmentFacts | src/components/QuittanceEditor.tsx:140 | the substituted segments contain no whitespace, and a field without whitespace appears verbatim |
| Quittance.UnderscoredConcat | src/components/QuittanceEditor.tsx:140 | the replacement works character by character, so it distributes over concatenation |
| Quittance.UnderscoredFieldsCollide | src/components/QuittanceEditor.tsx:167 | a field and its underscored form give the same file name, for the upload and the download alike |
| Quittance.SeparatorInFieldCollides | src/components/QuittanceEditor.tsx:140 | a dash inside a field cannot be told apart from the separator: ("A-B", "C") and ("A", "B-C") give the same name |
| ParametrageLoyers.MapSetFacts | src/pages/ParametrageLoyers.tsx:41 | on a map with distinct keys, `map.set` (`MapSet`) keeps the keys distinct, grows the map by one exactly for a new key, afterwards holds the key with the new value, and leaves every entry of another key in its place |
| ParametrageLoyers.MapOfKeys | src/pages/ParametrageLoyers.tsx:41 | the map built by `new Map(entries)` (`MapOf`) holds pairwise distinct keys, exactly the keys of its entry list |
| ParametrageLoyers.MapOfOrder | src/pages/ParametrageLoyers.tsx:41 | the map's entries follow the order of their keys' first occurrences |
| ParametrageLoyers.MapOfValues | src/pages/ParametrageLoyers.tsx:41 | each key holds the value of its last occurrence |
| ParametrageLoyers.MapFromLeases | src/pages/ParametrageLoyers.tsx:41-42 | the constructor fails exactly when some lease gives no entry (`PropertyEntry`, `TenantEntry` build it), and it reports the first such lease; otherwise it yields the map of all entries (`Entries`), one entry per lease in lease order |
| ParametrageLoyers.FirstMissing | src/pages/ParametrageLoyers.tsx:41 | the position of the first lease without the relation |
| ParametrageLoyers.UniqueRelationsFails | src/pages/ParametrageLoyers.tsx:40-45 | the page's dedup (`UniqueRelations`) throws exactly when some lease lacks its property or its tenant |
| ParametrageLoyers.NoLeases | src/pages/ParametrageLoyers.tsx:37-45 | no leases (the query's default `[]`) give empty property and tenant lists |
| ParametrageLoyers.Dedup | src/pages/ParametrageLoyers.tsx:40-45 | when every lease gives an entry keyed by its value's id, the values have pairwise distinct ids, one per id among the leases, in first-occurrence order, each the value from the last lease with that id |
| ParametrageLoyers.UniqueRelationsValues | src/pages/ParametrageLoyers.tsx:40-45 | with both relations present on every lease, the page's lists are the two maps' `.values()` (`ValuesOf`), in entry order |
| ParametrageLoyers.UniqueProperties | src/pages/ParametrageLoyers.tsx:40-42 | `properties` has pairwise distinct ids, exactly one per property id among the leases, in first-occurrence order, and each is the copy from the last lease carrying that id |
| ParametrageLoyers.UniqueTenants | src/pages/ParametrageLoyers.tsx:43-45 | the same for `tenants`, keyed by tenant id |

## Left out

- CSV reading: the file stream and `csv-parse` in the script and `Papa.parse` in the component. These are I/O and foreign libraries. The model takes the rows as sequences of records.
- `parseFloat`, `Number.prototype.toString`, the rent revision `parseFloat(loyerInitial) * (irlT1 / irlT)` with `toFixed(2)`, and the one-year date step through `Date`/`setFullYear`/`toISOString`. They are function parameters of the model. Floating-point rounding is not modelled: a finite amount is an exact real.
- `fetchIRL`, `handleFetchIRL` and the `toFixed` on the indices. They are mock network calls and float arithmetic.
- ReajustementLetter.ReplaceAll: replacement patterns such as `$&` or `$1` inside the substituted values are not interpreted; values are inserted literally.
- StatementRows.OperationFromRecord: the script's `row.amount.replace` throws when a record has no `amount` field. The model assumes the CSV header has an `amount` column, so every record carries one; `columns: true` names the header's columns but does not guarantee that one of them is `amount`.
- JsNumbers.Num: amounts are exact reals or one of the infinities or NaN; the distinction between -0 and +0 is not modelled.
- The hosted database, authentication and realtime calls: loading the leases, the lease upsert in the wizard's mutation, and the receipt PDF upload and its signed URL. They are network and asynchronous plumbing.
- React rendering, routing, hooks, `react-hook-form` and `react-query` state, the PDF renderer, the rich-text editor and `getNoteText`. They are UI and foreign libraries. The mutation's `isLoading` is a parameter of the submit rule.
- The field setters wired straight to inputs, such as `setNom` and `setLoyerInitial`, since they only store their input, and the wizard's `getValues` summary at step 4.
- `Promise.all` around the two CSV reads in the script: the matcher itself is sequential.
- The `Bien` type, which `src/components/Biens.tsx` imports from `src/App.tsx`, where it is not declared. Its fields are taken from what `handleAdd` builds.
- ParametrageLoyers.MapOf: only number keys are modelled, with JavaScript's SameValueZero reducing to equality on them.

## Findings

| source | as written | input that shows it | evidently intended | confidence | as-written member | corrected member |
|---|---|---|---|---|---|---|
| src/components/LeaseFormWizard.tsx:51 | `tenants.filter(t => t.property_id === selectedPropertyId)` compares the numeric `property_id` with the form's value, and a `<select>` (:127-130) stores the picked option's value as text | any tenant list, after the user picks property 3 in the list: the form holds "3", `3 === "3"` is false, and the tenant step shows "Aucun locataire" | keep the tenants of the picked property, comparing the ids as text (or the form value converted to a number) | medium, not executed | LeaseWizard.PickedPropertyShowsNoTenant | LeaseWizard.FilteredTenantsSelectsProperty |
