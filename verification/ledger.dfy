/**
  The transaction ledger of the finance tracker.

  The tracker's state is the list of recorded transactions together with the
  draft held by the "add transaction" form. The list is loaded once from the
  saved value, grows only by the form's submit handler, and is summarised by
  two totals: income and expenses, each a filter by type followed by a
  left-to-right sum of the parsed amounts.

  Calls the model cannot see are parameters: the clock reading used as the
  new entry's id (`now`), today's date for the form reset (`today`), the
  JSON decoder applied to the saved text (`decode`), and the JSON encoder
  whose output is saved after every change (`encode`).
 */
module Ledger {
  import opened Amounts

  datatype Option<T> = None | Some(value: T)

  /** One recorded entry. `kind` is the `type` field; the amount is the text
      the user typed, parsed when totals are computed (and for display). */
  datatype Transaction = Transaction(
    kind: string,
    amount: string,
    description: string,
    date: string,
    id: int)

  /** The form's contents: a transaction without its id. */
  datatype Draft = Draft(kind: string, amount: string, description: string, date: string)

  /** The tracker's whole state. */
  datatype Tracker = Tracker(transactions: seq<Transaction>, draft: Draft)

  /** The four form fields the user can edit. */
  datatype Field = KindField | AmountField | DescriptionField | DateField

  const Income: string := "income"
  const Expense: string := "expense"

  /** The form's contents on start-up and after every accepted submit. */
  function BlankDraft(today: string): Draft
  {
    Draft(Income, "", "", today)
  }

  // ---------------------------------------------------------------------------
  // Start-up

  /** The transaction list read at start-up: the decoded saved text, or the
      empty list when nothing is saved or the saved text is empty (JavaScript
      treats the empty string as false). */
  function LoadTransactions(saved: Option<string>, decode: string -> seq<Transaction>): (txs: seq<Transaction>)
    ensures saved.None? ==> txs == []
    ensures saved == Some("") ==> txs == []
    ensures saved.Some? && saved.value != "" ==> txs == decode(saved.value)
  {
    match saved
    case None => []
    case Some(text) => if text == "" then [] else decode(text)
  }

  /** The tracker as it starts: the loaded list and a blank draft dated today. */
  function Init(saved: Option<string>, decode: string -> seq<Transaction>, today: string): (s: Tracker)
    ensures saved.None? || saved == Some("") ==> s.transactions == []
    ensures saved.Some? && saved.value != "" ==> s.transactions == decode(saved.value)
    ensures s.draft.kind == Income && s.draft.amount == "" && s.draft.description == ""
    ensures s.draft.date == today
  {
    Tracker(LoadTransactions(saved, decode), BlankDraft(today))
  }

  /** Every change of the list is written back as encoded text. When decoding
      undoes encoding and the encoding of a list is never empty (a JSON array
      is at least `[]`), restarting from the written text restores the list. */
  lemma ReloadRestores(s: Tracker, encode: seq<Transaction> -> string,
                       decode: string -> seq<Transaction>, today: string)
    requires decode(encode(s.transactions)) == s.transactions
    requires encode(s.transactions) != ""
    ensures Init(Some(encode(s.transactions)), decode, today).transactions == s.transactions
    ensures Init(Some(encode(s.transactions)), decode, today).draft == BlankDraft(today)
  {
  }

  // ---------------------------------------------------------------------------
  // Editing the draft

  /** The value of one field of a draft. */
  function FieldValue(d: Draft, f: Field): string
  {
    match f
    case KindField => d.kind
    case AmountField => d.amount
    case DescriptionField => d.description
    case DateField => d.date
  }

  /** The draft with one field replaced by the value from the input. */
  function SetField(d: Draft, f: Field, v: string): (d': Draft)
    ensures FieldValue(d', f) == v
    ensures forall g :: g != f ==> FieldValue(d', g) == FieldValue(d, g)
  {
    match f
    case KindField => d.(kind := v)
    case AmountField => d.(amount := v)
    case DescriptionField => d.(description := v)
    case DateField => d.(date := v)
  }

  /** An input's change handler: only the edited field of the draft changes
      and the transaction list is untouched. */
  function Edit(s: Tracker, f: Field, v: string): (s': Tracker)
    ensures s'.transactions == s.transactions
    ensures FieldValue(s'.draft, f) == v
    ensures forall g :: g != f ==> FieldValue(s'.draft, g) == FieldValue(s.draft, g)
  {
    s.(draft := SetField(s.draft, f, v))
  }

  /** The field values determine a draft, so editing a field back to the
      value it had restores the state exactly. */
  lemma EditUndo(s: Tracker, f: Field, v: string)
    ensures Edit(Edit(s, f, v), f, FieldValue(s.draft, f)) == s
  {
    var d := Edit(Edit(s, f, v), f, FieldValue(s.draft, f)).draft;
    assert forall g :: FieldValue(d, g) == FieldValue(s.draft, g);
    assert d.kind == FieldValue(d, KindField);
    assert d.amount == FieldValue(d, AmountField);
    assert d.description == FieldValue(d, DescriptionField);
    assert d.date == FieldValue(d, DateField);
  }

  // ---------------------------------------------------------------------------
  // Submitting

  /** JavaScript truthiness of a string: only the empty string is false. */
  predicate Truthy(s: string)
  {
    s != ""
  }

  /** The submit guard: both the amount and the description are non-empty.
      No trimming and no check that the amount is numeric or positive. */
  predicate Accepts(d: Draft)
  {
    Truthy(d.amount) && Truthy(d.description)
  }

  /** The draft turned into an entry carrying the clock reading as its id. */
  function Record(d: Draft, now: int): Transaction
  {
    Transaction(d.kind, d.amount, d.description, d.date, now)
  }

  /** The form's submit handler. A rejected draft leaves the whole state as it
      was; an accepted one is appended to the list as the new last entry, with
      `now` as its id, and the draft is reset to a blank income entry dated
      `today`. */
  function Submit(s: Tracker, now: int, today: string): (s': Tracker)
    ensures !Accepts(s.draft) ==> s' == s
    ensures Accepts(s.draft) ==>
      && |s'.transactions| == |s.transactions| + 1
      && s'.transactions[..|s.transactions|] == s.transactions
      && s'.transactions[|s.transactions|] == Transaction(s.draft.kind, s.draft.amount, s.draft.description, s.draft.date, now)
      && s'.draft == Draft(Income, "", "", today)
  {
    if !Accepts(s.draft) then s
    else Tracker(s.transactions + [Record(s.draft, now)], BlankDraft(today))
  }

  /** The list changes exactly when the guard accepts the draft. */
  lemma SubmitChangesIffAccepted(s: Tracker, now: int, today: string)
    ensures Submit(s, now, today).transactions != s.transactions <==> Accepts(s.draft)
    ensures !Accepts(s.draft) <==> Submit(s, now, today) == s
  {
    if Accepts(s.draft) {
      assert |Submit(s, now, today).transactions| == |s.transactions| + 1;
    }
  }

  /** The guard is a plain emptiness test: "0" and a lone space are accepted. */
  lemma GuardIsTruthiness(kind: string, description: string, date: string)
    ensures description != "" ==> Accepts(Draft(kind, "0", description, date))
    ensures description != "" ==> Accepts(Draft(kind, " ", description, date))
    ensures !Accepts(Draft(kind, "", description, date))
    ensures !Accepts(Draft(kind, "0", "", date))
  {
  }

  // ---------------------------------------------------------------------------
  // Sessions

  /** One user action: typing into a form field, or submitting the form at a
      clock reading `now` on the date `today`. */
  datatype Event = EditEvent(field: Field, value: string) | SubmitEvent(now: int, today: string)

  /** The state after one user action. */
  function Step(s: Tracker, e: Event): Tracker
  {
    match e
    case EditEvent(f, v) => Edit(s, f, v)
    case SubmitEvent(now, today) => Submit(s, now, today)
  }

  /** The state after a session of user actions, applied in order. */
  function Run(s: Tracker, evs: seq<Event>): Tracker
    decreases |evs|
  {
    if |evs| == 0 then s else Run(Step(s, evs[0]), evs[1..])
  }

  /** The number of submits in a session. */
  function Submits(evs: seq<Event>): nat
    decreases |evs|
  {
    if |evs| == 0 then 0 else (if evs[0].SubmitEvent? then 1 else 0) + Submits(evs[1..])
  }

  /** The list is append-only across any session of edits and submits: the
      old list is a prefix of the new one, which grew by at most one entry per
      submit (so a session without submits leaves it unchanged). */
  lemma {:induction false} RunAppendOnly(s: Tracker, evs: seq<Event>)
    ensures var t := Run(s, evs);
      |s.transactions| <= |t.transactions| <= |s.transactions| + Submits(evs)
      && t.transactions[..|s.transactions|] == s.transactions
    decreases |evs|
  {
    if |evs| > 0 {
      var s1 := Step(s, evs[0]);
      assert |s1.transactions| <= |s.transactions| + (if evs[0].SubmitEvent? then 1 else 0);
      assert s1.transactions[..|s.transactions|] == s.transactions;
      RunAppendOnly(s1, evs[1..]);
      var t := Run(s1, evs[1..]);
      assert t.transactions[..|s.transactions|] == t.transactions[..|s1.transactions|][..|s.transactions|];
    }
  }

  predicate IdsIncreasing(txs: seq<Transaction>)
  {
    forall i, j :: 0 <= i < j < |txs| ==> txs[i].id < txs[j].id
  }

  /** Ids come from the clock and nothing checks them. A rejected submit keeps
      increasing ids increasing; an accepted one keeps them increasing exactly
      when the clock reading exceeds every id already recorded. */
  lemma SubmitKeepsIdsIncreasing(s: Tracker, now: int, today: string)
    requires IdsIncreasing(s.transactions)
    ensures !Accepts(s.draft) ==> IdsIncreasing(Submit(s, now, today).transactions)
    ensures Accepts(s.draft) ==>
      (IdsIncreasing(Submit(s, now, today).transactions)
       <==> forall i :: 0 <= i < |s.transactions| ==> s.transactions[i].id < now)
  {
    if Accepts(s.draft) {
      var t := Submit(s, now, today).transactions;
      var n := |s.transactions|;
      if IdsIncreasing(t) {
        forall i | 0 <= i < n
          ensures s.transactions[i].id < now
        {
          assert t[i] == s.transactions[i];
          assert t[n].id == now;
        }
      }
    }
  }

  /** Two entries can share an id: a clock that does not advance between two
      accepted submits repeats it. */
  lemma SameClockRepeatsId(s: Tracker, now: int, today: string)
    requires Accepts(s.draft)
    ensures var s1 := Submit(s, now, today);
      var s2 := Submit(Edit(Edit(s1, AmountField, "1"), DescriptionField, "x"), now, today);
      s2.transactions[|s.transactions|].id == s2.transactions[|s.transactions| + 1].id
  {
  }

  // ---------------------------------------------------------------------------
  // Totals

  /** `transactions.filter(t => t.type === kind)`. */
  function Filter(kind: string, txs: seq<Transaction>): (r: seq<Transaction>)
    ensures |r| <= |txs|
    ensures (forall i :: 0 <= i < |txs| ==> txs[i].kind != kind) ==> r == []
  {
    if |txs| == 0 then []
    else (if txs[0].kind == kind then [txs[0]] else []) + Filter(kind, txs[1..])
  }

  /** `.reduce((sum, t) => sum + parseFloat(t.amount), acc)`: a left fold. */
  function Reduce(acc: Number, txs: seq<Transaction>): (r: Number)
    ensures acc.NaN? ==> r.NaN?
    decreases |txs|
  {
    if |txs| == 0 then acc else Reduce(Add(acc, ParseAmount(txs[0].amount)), txs[1..])
  }

  /** A total as the tracker computes it: filter by type, then sum from 0. */
  function Total(kind: string, txs: seq<Transaction>): (r: Number)
    ensures (forall i :: 0 <= i < |txs| ==> txs[i].kind != kind) ==> r == Finite(0.0)
  {
    Reduce(Finite(0.0), Filter(kind, txs))
  }

  /** `totalIncome`: the sum of the parsed amounts of the income entries. */
  function TotalIncome(txs: seq<Transaction>): (r: Number)
    ensures r == SumOfKind(Income, txs)
    ensures (forall i :: 0 <= i < |txs| ==> txs[i].kind != Income) ==> r == Finite(0.0)
  {
    TotalIsSumOfKind(Income, txs);
    Total(Income, txs)
  }

  /** `totalExpenses`: the sum of the parsed amounts of the expense entries. */
  function TotalExpenses(txs: seq<Transaction>): (r: Number)
    ensures r == SumOfKind(Expense, txs)
    ensures (forall i :: 0 <= i < |txs| ==> txs[i].kind != Expense) ==> r == Finite(0.0)
  {
    TotalIsSumOfKind(Expense, txs);
    Total(Expense, txs)
  }

  /** Reference definition: the sum, in list order, of the parsed amounts of
      exactly those entries whose type is `kind`. */
  function SumOfKind(kind: string, txs: seq<Transaction>): Number
    decreases |txs|
  {
    if |txs| == 0 then Finite(0.0)
    else
      var last := txs[|txs| - 1];
      var prev := SumOfKind(kind, txs[..|txs| - 1]);
      if last.kind == kind then Add(prev, ParseAmount(last.amount)) else prev
  }

  /** The filtered list holds exactly the entries of the requested type. */
  lemma {:induction false} FilterMembers(kind: string, txs: seq<Transaction>)
    ensures forall t :: t in Filter(kind, txs) <==> t in txs && t.kind == kind
    decreases |txs|
  {
    if |txs| > 0 {
      var head := if txs[0].kind == kind then [txs[0]] else [];
      var rest := Filter(kind, txs[1..]);
      FilterMembers(kind, txs[1..]);
      assert Filter(kind, txs) == head + rest;
      forall t
        ensures t in head + rest <==> t in txs && t.kind == kind
      {
        assert t in head + rest <==> t in head || t in rest;
        assert t in txs <==> t == txs[0] || t in txs[1..];
      }
    }
  }

  lemma {:induction false} FilterAppend(kind: string, txs: seq<Transaction>, t: Transaction)
    ensures Filter(kind, txs + [t]) == Filter(kind, txs) + (if t.kind == kind then [t] else [])
    decreases |txs|
  {
    var extra := if t.kind == kind then [t] else [];
    if |txs| == 0 {
      assert txs + [t] == [t];
      assert Filter(kind, [t]) == extra + Filter(kind, []);
    } else {
      var head := if txs[0].kind == kind then [txs[0]] else [];
      assert (txs + [t])[1..] == txs[1..] + [t];
      assert Filter(kind, txs + [t]) == head + Filter(kind, txs[1..] + [t]);
      FilterAppend(kind, txs[1..], t);
      assert head + (Filter(kind, txs[1..]) + extra) == (head + Filter(kind, txs[1..])) + extra;
    }
  }

  lemma {:induction false} ReduceAppend(acc: Number, txs: seq<Transaction>, t: Transaction)
    ensures Reduce(acc, txs + [t]) == Add(Reduce(acc, txs), ParseAmount(t.amount))
    decreases |txs|
  {
    if |txs| == 0 {
      assert txs + [t] == [t];
    } else {
      assert (txs + [t])[1..] == txs[1..] + [t];
      ReduceAppend(Add(acc, ParseAmount(txs[0].amount)), txs[1..], t);
    }
  }

  /** Appending an entry adds its parsed amount to the total of its own type
      and leaves every other total as it was. */
  lemma TotalAppend(kind: string, txs: seq<Transaction>, t: Transaction)
    ensures Total(kind, txs + [t])
         == if t.kind == kind then Add(Total(kind, txs), ParseAmount(t.amount)) else Total(kind, txs)
  {
    FilterAppend(kind, txs, t);
    if t.kind == kind {
      ReduceAppend(Finite(0.0), Filter(kind, txs), t);
    } else {
      assert Filter(kind, txs + [t]) == Filter(kind, txs);
    }
  }

  lemma SumOfKindAppend(kind: string, txs: seq<Transaction>, t: Transaction)
    ensures SumOfKind(kind, txs + [t])
         == if t.kind == kind then Add(SumOfKind(kind, txs), ParseAmount(t.amount)) else SumOfKind(kind, txs)
  {
    assert (txs + [t])[..|txs|] == txs;
  }

  lemma TotalIsSumOfKindStep(kind: string, txs: seq<Transaction>)
    requires |txs| > 0
    ensures Total(kind, txs[..|txs| - 1]) == SumOfKind(kind, txs[..|txs| - 1]) ==>
      Total(kind, txs) == SumOfKind(kind, txs)
  {
    var init, last := txs[..|txs| - 1], txs[|txs| - 1];
    assert txs == init + [last];
    SumOfKindAppend(kind, init, last);
    TotalAppend(kind, init, last);
  }

  /** The filter-then-reduce total equals the reference sum over the entries
      of that type. */
  lemma {:induction false} TotalIsSumOfKind(kind: string, txs: seq<Transaction>)
    ensures Total(kind, txs) == SumOfKind(kind, txs)
    decreases |txs|
  {
    if |txs| > 0 {
      TotalIsSumOfKind(kind, txs[..|txs| - 1]);
      TotalIsSumOfKindStep(kind, txs);
    }
  }

  /** Entries of a third type, or of the other type, never move a total: the
      total is the same with such an entry removed from anywhere in the list. */
  lemma {:induction false} OtherKindIgnored(kind: string, a: seq<Transaction>, t: Transaction, b: seq<Transaction>)
    requires t.kind != kind
    ensures Total(kind, a + [t] + b) == Total(kind, a + b)
    decreases |b|
  {
    if |b| == 0 {
      assert a + [t] + b == a + [t];
      assert a + b == a;
      TotalAppend(kind, a, t);
    } else {
      var init := b[..|b| - 1];
      var last := b[|b| - 1];
      assert a + [t] + b == (a + [t] + init) + [last];
      assert a + b == (a + init) + [last];
      OtherKindIgnored(kind, a, t, init);
      TotalAppend(kind, a + [t] + init, last);
      TotalAppend(kind, a + init, last);
    }
  }

  /** The total of two lists joined is the sum of their totals: the left
      fold may be split anywhere. */
  lemma {:induction false} TotalConcat(kind: string, a: seq<Transaction>, b: seq<Transaction>)
    ensures Total(kind, a + b) == Add(Total(kind, a), Total(kind, b))
    decreases |b|
  {
    if |b| == 0 {
      assert a + b == a;
      AddZero(Total(kind, a));
    } else {
      var init, last := b[..|b| - 1], b[|b| - 1];
      assert a + b == (a + init) + [last];
      assert b == init + [last];
      TotalConcat(kind, a, init);
      TotalAppend(kind, a + init, last);
      TotalAppend(kind, init, last);
      if last.kind == kind {
        AddAssociative(Total(kind, a), Total(kind, init), ParseAmount(last.amount));
      }
    }
  }

  /** Which of two blocks of entries was recorded first does not change a
      total. */
  lemma TotalSwapBlocks(kind: string, a: seq<Transaction>, b: seq<Transaction>)
    ensures Total(kind, a + b) == Total(kind, b + a)
  {
    TotalConcat(kind, a, b);
    TotalConcat(kind, b, a);
    AddCommutative(Total(kind, a), Total(kind, b));
  }

  /** Both totals of the empty list are 0. */
  lemma TotalsOfEmpty()
    ensures TotalIncome([]) == Finite(0.0)
    ensures TotalExpenses([]) == Finite(0.0)
  {
  }

  /** An accepted submit raises the total of the draft's type by the draft's
      parsed amount and leaves the other total unchanged; a draft of any
      other type moves neither. A rejected submit moves nothing. */
  lemma SubmitTotals(s: Tracker, now: int, today: string)
    ensures var s' := Submit(s, now, today);
      var p := ParseAmount(s.draft.amount);
      && TotalIncome(s'.transactions)
         == (if Accepts(s.draft) && s.draft.kind == Income
             then Add(TotalIncome(s.transactions), p) else TotalIncome(s.transactions))
      && TotalExpenses(s'.transactions)
         == (if Accepts(s.draft) && s.draft.kind == Expense
             then Add(TotalExpenses(s.transactions), p) else TotalExpenses(s.transactions))
  {
    if Accepts(s.draft) {
      var t := Record(s.draft, now);
      assert Submit(s, now, today).transactions == s.transactions + [t];
      TotalAppend(Income, s.transactions, t);
      TotalAppend(Expense, s.transactions, t);
    }
  }
}
