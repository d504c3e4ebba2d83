/** The closing scenario of tests/test_business_rules.py: one company paid
    10% IRPF with 50.00 of other deductions, one February 2026 work day of
    1000.00 gross with 100.00 advanced, and one 20.00 expense kept out of
    the bank. Closing the month posts one movement of 730.00 EUR dated
    2026-02-28. */
module Scenarios {
  import opened Common
  import opened Money
  import opened Calendar
  import opened Rounding
  import opened Tables
  import opened Grouping
  import opened Queries
  import opened Ledgers

  function February(): DateRange {
    DateRange(Date(2026, 2, 1), Date(2026, 3, 1))
  }

  function TestCompany(cid: Id, user: Id): Company {
    Company(cid, user, "Empresa", "EUR", 1000, 1200, 10.0, 5000, false)
  }

  function TestEntry(eid: Id, cid: Id, user: Id): WorkEntry {
    WorkEntry(eid, user, cid, Date(2026, 2, 10), None, None, 0, 0.0, 0.0, 0, 0, 10000, 100000)
  }

  function TestExpense(xid: Id, user: Id): Expense {
    Expense(xid, user, Date(2026, 2, 11), "Cat", "Concepto", 2000, "EUR", false)
  }

  /** A single row groups to a single entry. */
  lemma SingletonGroup(k: string, v: int)
    ensures GroupSum([(k, v)]) == map[k := v]
  {
    var rows := [(k, v)];
    assert rows[..0] == [];
    var m := GroupSum(rows);
    assert forall j :: j in KeysOf(rows) ==> j == k;
    assert rows[0].0 == k;
    assert m.Keys == {k};
    assert Get(m, k) == SumFor(rows, k) == v;
  }

  /** February 2026 is the half-open range [2026-02-01, 2026-03-01). */
  lemma FebruaryRange()
    ensures ValidPeriod(2026, 2) && MonthRange(2026, 2) == Some(February())
  {
  }

  /** The one company has one row: gross 100000 and advances 10000. */
  lemma ScenarioIncomeRows(cid: Id, eid: Id, user: Id)
    ensures IncomeRows([TestCompany(cid, user)], [TestEntry(eid, cid, user)], user, February())
      == [IncomeRow(TestCompany(cid, user), 100000, 10000)]
  {
    var c := TestCompany(cid, user);
    var es := [TestEntry(eid, cid, user)];
    assert Counted(es[0], user, February(), cid);
    assert HasEntries(es, user, February(), cid);
    assert es[..0] == [];
    assert GrossOf(es, user, February(), cid) == 100000;
    assert AdvancesOf(es, user, February(), cid) == 10000;
    assert [c][..0] == [];
  }

  /** 10% of 1000.00 is 100.00; the estimated net is 850.00 and, after the
      advance, the final net 750.00. */
  lemma ScenarioItem(cid: Id, user: Id)
    ensures ItemOf(IncomeRow(TestCompany(cid, user), 100000, 10000))
      == IncomeItem("Empresa", "EUR", 100000, 10000, 5000, 85000, 10000, 75000)
  {
    assert 100000 as real * (10.0 / 100.0) == 10000 as real;
    RoundIntegral(10000);
  }

  /** The month's net income: 750.00 EUR and nothing in any other currency. */
  lemma ScenarioIncomeNet(cid: Id, eid: Id, user: Id)
    ensures IncomeNetByCurrency([TestCompany(cid, user)], [TestEntry(eid, cid, user)], user, February())
      == map["EUR" := 75000]
  {
    ScenarioIncomeRows(cid, eid, user);
    ScenarioItem(cid, user);
    var pairs := NetRows([IncomeRow(TestCompany(cid, user), 100000, 10000)]);
    assert pairs == [("EUR", 75000)];
    assert pairs[..0] == [];
    SingletonGroup("EUR", 75000);
  }

  /** The expenses kept out of the bank: 20.00 EUR. */
  lemma ScenarioNotInBank(xid: Id, user: Id)
    ensures ExpensesNotInBankByCurrency([TestExpense(xid, user)], user, February()) == map["EUR" := 2000]
  {
    var xs := [TestExpense(xid, user)];
    assert xs[..0] == [];
    assert InRange(xs[0].date, February());
    assert ExpenseCounted(xs[0], user, February(), true);
    assert ExpenseRows(xs, user, February(), true) == [("EUR", 2000)];
    SingletonGroup("EUR", 2000);
  }

  /** `amounts_by_currency` is 730.00 EUR. */
  lemma ScenarioAmounts(cid: Id, eid: Id, xid: Id, user: Id)
    ensures ClosingAmounts([TestCompany(cid, user)], [TestEntry(eid, cid, user)], [TestExpense(xid, user)], user, 2026, 2)
      == map["EUR" := 73000]
  {
    FebruaryRange();
    ScenarioIncomeNet(cid, eid, user);
    ScenarioNotInBank(xid, user);
  }

  /** With only euros to close, the closing loop posts one movement. */
  lemma EuroOnlyPostings(amount: int, user: Id, closureId: Id, day: Date, note: string, firstId: Id)
    requires amount != 0
    ensures ClosurePostings(SupportedList, map["EUR" := amount], user, closureId, day, note, firstId)
      == [BankMovement(firstId, user, day, KindMonthClosure, amount, "EUR", note, ClosureLink(closureId))]
  {
    var a := map["EUR" := amount];
    ClosurePostingsUnfold(SupportedList, a, user, closureId, day, note, firstId);
    assert SupportedList[1..] == ["XAF"];
    ClosurePostingsUnfold(["XAF"], a, user, closureId, day, note, firstId + 1);
    assert ["XAF"][1..] == [];
  }

  /** Closing February 2026 posts exactly one movement: 73000 cents of EUR,
      dated 2026-02-28, typed `ingresoMesCerrado` and linked to the closure. */
  lemma ScenarioClosurePostings(cid: Id, eid: Id, xid: Id, user: Id, closureId: Id, firstId: Id)
    ensures MonthClosurePostings([TestCompany(cid, user)], [TestEntry(eid, cid, user)], [TestExpense(xid, user)],
                                 user, 2026, 2, closureId, firstId)
      == [BankMovement(firstId, user, Date(2026, 2, 28), KindMonthClosure, 73000, "EUR",
                       ClosureNote(2026, 2), ClosureLink(closureId))]
  {
    var cs, es, xs := [TestCompany(cid, user)], [TestEntry(eid, cid, user)], [TestExpense(xid, user)];
    FebruaryRange();
    ScenarioAmounts(cid, eid, xid, user);
    var day, note := ClosingDay(2026, 2), ClosureNote(2026, 2);
    assert MonthClosurePostings(cs, es, xs, user, 2026, 2, closureId, firstId)
      == ClosurePostings(SupportedList, map["EUR" := 73000], user, closureId, day, note, firstId);
    EuroOnlyPostings(73000, user, closureId, day, note, firstId);
  }
}
