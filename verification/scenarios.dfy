/**
  Worked examples of the tracker: an empty ledger receiving a salary, then an
  expense, a submit with no amount, and a blank amount that passes the guard
  and turns total income into NaN.
 */
module Scenarios {
  import opened Amounts
  import opened Ledger

  /** A tracker holding `txs` whose form is filled in with the given values. */
  function Filled(txs: seq<Transaction>, kind: string, amount: string, description: string, date: string): Tracker
  {
    Tracker(txs, Draft(kind, amount, description, date))
  }

  lemma ParseHundred()
    ensures ParseAmount("100.00") == Finite(100.0)
  {
    assert NatDigits(100) == "100" by {
      assert NatDigits(1) == "1";
      assert NatDigits(10) == NatDigits(1) + "0";
    }
    assert UnsignedTwoDecimals(10000) == NatDigits(100) + "." + "00";
    assert TwoDecimals(10000) + "" == "100.00";
    TwoDecimalsRoundTrip(10000, "");
  }

  lemma ParseForty()
    ensures ParseAmount("40.00") == Finite(40.0)
  {
    assert NatDigits(40) == "40" by {
      assert NatDigits(4) == "4";
    }
    assert UnsignedTwoDecimals(4000) == NatDigits(40) + "." + "00";
    assert TwoDecimals(4000) + "" == "40.00";
    TwoDecimalsRoundTrip(4000, "");
  }

  /** Empty ledger, one salary of 100.00: one entry, income 100, expenses 0. */
  lemma SalaryScenario(now: int, today: string)
    ensures var s := Submit(Filled([], Income, "100.00", "Salary", "2024-01-01"), now, today);
      && s.transactions == [Transaction(Income, "100.00", "Salary", "2024-01-01", now)]
      && TotalIncome(s.transactions) == Finite(100.0)
      && TotalExpenses(s.transactions) == Finite(0.0)
  {
    ParseHundred();
    var s0 := Filled([], Income, "100.00", "Salary", "2024-01-01");
    SubmitTotals(s0, now, today);
  }

  /** Then an expense of 40.00: income stays 100, expenses become 40. */
  lemma SalaryThenRentScenario(now1: int, now2: int, today: string)
    ensures var s1 := Submit(Filled([], Income, "100.00", "Salary", "2024-01-01"), now1, today);
      var s2 := Submit(Filled(s1.transactions, Expense, "40.00", "Rent", "2024-01-02"), now2, today);
      && |s2.transactions| == 2
      && TotalIncome(s2.transactions) == Finite(100.0)
      && TotalExpenses(s2.transactions) == Finite(40.0)
  {
    SalaryScenario(now1, today);
    var s1 := Submit(Filled([], Income, "100.00", "Salary", "2024-01-01"), now1, today);
    SubmitTotals(Filled(s1.transactions, Expense, "40.00", "Rent", "2024-01-02"), now2, today);
    ParseForty();
  }

  /** A submit without an amount is ignored: the ledger stays empty and the
      form keeps what was typed. */
  lemma MissingAmountScenario(now: int, today: string)
    ensures var s0 := Filled([], Income, "", "x", "2024-01-01");
      Submit(s0, now, today) == s0 && Submit(s0, now, today).transactions == []
  {
  }

  /** A blank amount passes the guard, and since it is not a number it turns
      the income total into NaN. */
  lemma BlankAmountPoisonsIncome(now: int, today: string)
    ensures var s := Submit(Filled([], Income, " ", "x", "2024-01-01"), now, today);
      |s.transactions| == 1 && TotalIncome(s.transactions) == NaN
  {
    var s0 := Filled([], Income, " ", "x", "2024-01-01");
    assert ParseAmount(" ") == NaN by {
      assert TrimStart(" ") == [];
    }
    SubmitTotals(s0, now, today);
  }
}
