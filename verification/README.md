# Finance tracker ledger, modelled in Dafny

The dashboard's finance tracker keeps a list of income and expense
transactions and a form (the *draft*) for adding one more. This project models
that component, `FinanceTracker` in `src/components/tracker/FinanceTracker.jsx`:

- **Start-up** reads the saved text, decodes it when it is present and
  non-empty, and otherwise starts from the empty list. The draft starts as a
  blank income entry dated today.
- **Editing** one form field replaces exactly that field of the draft.
- **Submitting** checks that the amount text and the description text are
  non-empty, which is JavaScript string truthiness. If they are, it appends
  the draft with the clock reading as its `id` and resets the draft.
  Otherwise nothing changes.
- **Totals** filter the list by `type` (`"income"` or `"expense"`). They then
  sum `parseFloat(amount)` from left to right, starting at 0.

Files:

- `amounts.dfy`, module `Amounts`. JavaScript numbers as `Finite(real)`,
  `PosInf`, `NegInf` or `NaN`, with exact real arithmetic in place of
  doubles. It defines JavaScript `+` on them and models `parseFloat`
  (section 19.2.4 of ECMA-262) over the StrDecimalLiteral grammar (section
  7.1.4.1 of ECMA-262): skip white space, take an optional sign, then the
  longest literal prefix. It also proves that
  two-decimal text reads back exactly.
- `ledger.dfy`, module `Ledger`. The `Transaction`, `Draft` and `Tracker`
  datatypes, plus start-up, field edits, the submit handler, sessions of
  edits and submits, and the totals,
  with their lemmas.
- `scenarios.dfy`, module `Scenarios`. Worked examples: a salary of 100.00,
  then an expense of 40.00, a submit without an amount, and a blank amount.

These calls cannot be seen by the model, so they are parameters:

- `Date.now()` is the `now` argument of `Submit`.
- Today's ISO date is `today`.
- `JSON.parse` of the saved text is a function argument, `decode`.
- `JSON.stringify` is `encode`.

The model follows the code, which is looser than a ledger is usually expected to be:

- The code's guard accepts any non-empty amount text, such as `"0"`, `" "` or
  `"-5"`. It does not check that the amount is numeric or positive.
- A saved text that is not valid JSON makes `JSON.parse` throw. It is not
  treated as an empty ledger.
- The code does not compute a net balance, so the model does not either.

## Model

| member | source | states |
|---|---|---|
| Ledger.LoadTransactions | src/components/tracker/FinanceTracker.jsx:6-7 | nothing saved or an empty saved text gives the empty list; any other saved text gives its decoding |
| Ledger.Init | src/components/tracker/FinanceTracker.jsx:5-15 | with nothing saved or an empty saved text the list is empty; otherwise it is the decoded saved text unchanged; the draft is a blank income entry dated today |
| Ledger.ReloadRestores | src/components/tracker/FinanceTracker.jsx:5-19 | when decoding undoes encoding and encodings are non-empty, starting up from the text written after a change gives back the same list and a blank draft |
| Ledger.SetField | src/components/tracker/FinanceTracker.jsx:75-110 | the edited field takes the input's value and the other three fields keep theirs |
| Ledger.Edit | src/components/tracker/FinanceTracker.jsx:75-110 | a field edit leaves the transaction list untouched and changes only that field of the draft |
| Ledger.EditUndo | src/components/tracker/FinanceTracker.jsx:75-110 | editing a field back to its previous value restores the whole state |
| Ledger.Submit | src/components/tracker/FinanceTracker.jsx:21-32 | a rejected draft leaves list and draft unchanged; an accepted one makes the list one longer, keeps every earlier entry in place, adds a last entry with the draft's four fields and id `now`, and resets the draft to income, empty amount, empty description, date `today` |
| Ledger.SubmitChangesIffAccepted | src/components/tracker/FinanceTracker.jsx:23-25 | the list changes if and only if both amount and description are non-empty, and the state is unchanged if and only if the guard rejects |
| Ledger.GuardIsTruthiness | src/components/tracker/FinanceTracker.jsx:23 | `"0"` and `" "` pass the guard with a description; an empty amount or empty description fails it |
| Ledger.RunAppendOnly | src/components/tracker/FinanceTracker.jsx:21-32 | after any session of field edits and submits, each with its own clock reading and date, the old list is a prefix of the new one, which grew by at most one entry per submit |
| Ledger.SubmitKeepsIdsIncreasing | src/components/tracker/FinanceTracker.jsx:23-25 | strictly increasing ids stay strictly increasing after a rejected submit whatever the clock reads, and after an accepted submit if and only if the clock reading exceeds every stored id |
| Ledger.SameClockRepeatsId | src/components/tracker/FinanceTracker.jsx:25 | two accepted submits with the same clock reading record two entries with the same id, so ids are not unique |
| Ledger.Filter | src/components/tracker/FinanceTracker.jsx:38-39 | the filtered list is no longer than the input and is empty when no entry has the given type |
| Ledger.FilterMembers | src/components/tracker/FinanceTracker.jsx:38-39 | an entry is in the filtered list if and only if it is in the input and has the given type |
| Ledger.Reduce | src/components/tracker/FinanceTracker.jsx:40 | once the running sum is NaN, the result stays NaN |
| Ledger.Total | src/components/tracker/FinanceTracker.jsx:38-44 | a list with no entry of the given type totals 0 |
| Ledger.FilterAppend | src/components/tracker/FinanceTracker.jsx:38-39 | filtering keeps list order: filtering a list extended by one entry extends the filtered list by that entry exactly when its type matches |
| Ledger.ReduceAppend | src/components/tracker/FinanceTracker.jsx:40 | summing a list extended by one entry adds that entry's parsed amount to the previous sum |
| Ledger.TotalIncome | src/components/tracker/FinanceTracker.jsx:38-40 | total income equals the independent in-order sum of the parsed amounts of exactly the income entries, and is 0 when there are none |
| Ledger.TotalExpenses | src/components/tracker/FinanceTracker.jsx:42-44 | total expenses equals the independent in-order sum of the parsed amounts of exactly the expense entries, and is 0 when there are none |
| Ledger.TotalConcat | src/components/tracker/FinanceTracker.jsx:38-44 | the total of two lists joined is the sum of their totals |
| Ledger.TotalSwapBlocks | src/components/tracker/FinanceTracker.jsx:38-44 | swapping two blocks of entries does not change a total |
| Ledger.TotalAppend | src/components/tracker/FinanceTracker.jsx:38-44 | appending an entry adds its parsed amount to the total of its own type and leaves the other totals unchanged |
| Ledger.TotalIsSumOfKind | src/components/tracker/FinanceTracker.jsx:38-44 | the filter-then-reduce total equals an independent definition that sums, in list order, the parsed amounts of exactly the entries of that type |
| Ledger.OtherKindIgnored | src/components/tracker/FinanceTracker.jsx:38-44 | an entry of another type, at any position, does not change a total |
| Ledger.TotalsOfEmpty | src/components/tracker/FinanceTracker.jsx:38-44 | both totals of the empty list are 0 |
| Ledger.SubmitTotals | src/components/tracker/FinanceTracker.jsx:21-44 | an accepted income draft raises total income by its parsed amount and leaves expenses unchanged, and symmetrically for an expense draft; other types and rejected drafts move neither total |
| Amounts.Add | src/components/tracker/FinanceTracker.jsx:40 | JavaScript `+` on numbers: NaN absorbs, opposite infinities give NaN, an infinity absorbs any finite value or itself, and two finite values give their exact sum (no rounding or overflow) |
| Amounts.AddZero | src/components/tracker/FinanceTracker.jsx:40 | 0, the start value of each sum, is an identity of the model's addition |
| Amounts.AddCommutative | src/components/tracker/FinanceTracker.jsx:40 | the model's addition is commutative, NaN and infinities included |
| Amounts.AddAssociative | src/components/tracker/FinanceTracker.jsx:40 | the model's addition is associative |
| Amounts.TrimStart | src/components/tracker/FinanceTracker.jsx:40 | `parseFloat` drops a prefix made only of white space, and the text left does not start with white space |
| Amounts.LeadingDigits | src/components/tracker/FinanceTracker.jsx:40 | the digit scan returns a prefix made only of digits, followed by a non-digit or by the end of the text |
| Amounts.ParseAmount | src/components/tracker/FinanceTracker.jsx:40 | an empty text is NaN, and so is text whose first character after white space is not a sign, a digit, `.` or the `I` of `Infinity` |
| Amounts.LeadingWhiteSpaceIgnored | src/components/tracker/FinanceTracker.jsx:40 | white space before an amount does not change its parsed value |
| Amounts.DigitsValueOfNatDigits | src/components/tracker/FinanceTracker.jsx:40 | reading back the decimal digits of a natural number gives that number |
| Amounts.TwoDecimalsRoundTrip | src/components/tracker/FinanceTracker.jsx:40 | the two-decimal text of a number of cents, possibly negative and possibly followed by trailing text that cannot continue the literal, parses to exactly cents/100 |
| Amounts.ExponentNotation | src/components/tracker/FinanceTracker.jsx:40 | digits followed by `e` and exponent digits parse to the integer times that power of ten |
| Scenarios.SalaryScenario | src/components/tracker/FinanceTracker.jsx:21-44 | submitting an income of "100.00" into an empty ledger gives one entry, income 100 and expenses 0 |
| Scenarios.SalaryThenRentScenario | src/components/tracker/FinanceTracker.jsx:21-44 | then submitting an expense of "40.00" gives two entries, income 100 and expenses 40 |
| Scenarios.MissingAmountScenario | src/components/tracker/FinanceTracker.jsx:23 | a submit with an empty amount leaves the ledger empty and the form as typed |
| Scenarios.BlankAmountPoisonsIncome | src/components/tracker/FinanceTracker.jsx:23-40 | for the submit handler alone, an amount of a single space passes the guard and makes total income NaN |

## Left out

- Local storage I/O and JSON (lines 6-7, 17-19) are not modelled. The saved value is an `Option<string>`, and decoding and encoding are function parameters. A decode that throws on malformed text is not modelled.
- The effect that writes the list after every change (lines 17-19) is a browser side effect. The model only states what a later start-up reads back (`Ledger.ReloadRestores`).
- Amounts.ParseAmount: this is `parseFloat` with exact reals. Binary rounding, overflow to Infinity for huge exponents, and the sign of zero are not modelled. These are floating-point artefacts.
- Amounts.Add: finite sums are exact reals. Rounding of a sum to the nearest double (`0.1 + 0.2` is `0.30000000000000004` in JavaScript) and the overflow of a finite sum to Infinity or -Infinity (`1e308 + 1e308`) are not modelled; the model always gives a finite result for two finite operands.
- Amounts.AddZero: holds for the model, which has no signed zero. In JavaScript `-0 + 0` is `+0`, so the identity of `+` is -0. The program's totals start at +0 and are never -0, so this does not affect them.
- Amounts.AddAssociative: holds for the exact model only. Double-precision addition is not associative.
- Ledger.TotalConcat: rests on associativity, so it holds for the exact model only. Double-precision totals can differ in the last bits depending on where the fold is split.
- Ledger.TotalSwapBlocks: holds for the exact model only, for the same reason.
- The `toFixed(2)` display of the totals and of each amount (lines 61, 65, 137) is formatting and is not modelled. `TwoDecimals` only serves the round-trip lemma.
- The browser cleans the value of a `type="number"` input (line 85), so text that is not a valid number reaches `onChange` as the empty string. The model's field edits take any text, so `Scenarios.BlankAmountPoisonsIncome` is a property of the handler alone, not of input typed through the form.
- `e.preventDefault()` (line 22) stops the browser's own form submission. It has no effect on the state and is not modelled.
- Browser form validation is not modelled. This covers the `required`, `min="0"` and `step="0.01"` attributes of the inputs (lines 89-91, 102, 112). The model's submit is the handler alone, so it admits drafts the browser would block before the handler runs.
- `window.print` (line 35) and all rendering (lines 46-143) are display only.
- `Date.now()` and `new Date().toISOString()` (lines 14, 25, 30) are clock reads, passed in as `now` and `today`.
- The amount can be stored as a JSON number rather than text. `parseFloat` would then convert it to a string first. The model keeps amounts as text only.
- `src/App.jsx` (page switching) and `src/layouts/MainLayout.jsx` (layout) are UI glue and are not part of this model.
