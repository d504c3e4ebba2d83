/** The read side of app/services.py: every SQL query, filtered by the
    caller's user id, as a function over the table sequences, together with
    the properties the monthly reports and the month closure rely on. */
module Queries {
  import opened Common
  import opened Text
  import opened Rounding
  import opened Calendar
  import opened Tables
  import opened Grouping

  // ---------------------------------------------------------------------------
  // Month closures

  /** `is_month_closed(user, year, month)`: some closure row has that key. */
  function IsMonthClosed(closures: seq<Closure>, user: Id, y: int, m: int): (b: bool)
    ensures b <==> (exists i :: 0 <= i < |closures| &&
                      closures[i].userId == user && closures[i].year == y && closures[i].month == m)
  {
    if closures == [] then false
    else
      var c := closures[|closures| - 1];
      var pre := closures[..|closures| - 1];
      assert forall i :: 0 <= i < |pre| ==> pre[i] == closures[i];
      (c.userId == user && c.year == y && c.month == m) || IsMonthClosed(pre, user, y, m)
  }

  /** `ensure_month_open(user, d)`: fails exactly when the month of `d` is
      closed for that user. */
  function EnsureMonthOpen(closures: seq<Closure>, user: Id, d: Date): (o: Outcome)
    ensures o.Fail? <==> IsMonthClosed(closures, user, d.year, d.month)
    ensures o.Fail? ==> o.error == MonthClosed
  {
    if IsMonthClosed(closures, user, d.year, d.month) then Fail(MonthClosed) else Pass
  }

  /** A closure row closes its own month and affects no other user or month. */
  lemma ClosureFrame(closures: seq<Closure>, c: Closure, user: Id, y: int, m: int)
    ensures IsMonthClosed(closures + [c], c.userId, c.year, c.month)
    ensures (c.userId != user || c.year != y || c.month != m) ==>
      IsMonthClosed(closures + [c], user, y, m) == IsMonthClosed(closures, user, y, m)
  {
    assert (closures + [c])[..|closures|] == closures;
  }

  /** The key (user, year, month) of every closure row is unique. */
  predicate UniqueClosureKeys(closures: seq<Closure>) {
    forall i, j :: 0 <= i < j < |closures| ==>
      !(closures[i].userId == closures[j].userId && closures[i].year == closures[j].year &&
        closures[i].month == closures[j].month)
  }

  /** Appending a closure for a month that is still open keeps the keys unique. */
  lemma UniqueClosureKeysAppend(closures: seq<Closure>, c: Closure)
    requires UniqueClosureKeys(closures) && !IsMonthClosed(closures, c.userId, c.year, c.month)
    ensures UniqueClosureKeys(closures + [c])
  {
  }

  // ---------------------------------------------------------------------------
  // Daily gross

  /** `compute_bruto_dia_cents`: each hours x rate product is rounded with
      Python's `round`, then bonus and pluses are added. */
  function ComputeGrossDay(dayHours: real, nightHours: real, dayRate: int, nightRate: int,
                           bonus: int, pluses: int): (g: int)
    ensures -1.0 <= (g - bonus - pluses) as real - (dayHours * dayRate as real + nightHours * nightRate as real) <= 1.0
  {
    RoundHalfEven(dayHours * dayRate as real) + RoundHalfEven(nightHours * nightRate as real) + bonus + pluses
  }

  /** With whole hours the gross is exact. */
  lemma GrossDayWholeHours(dh: int, nh: int, dayRate: int, nightRate: int, bonus: int, pluses: int)
    ensures ComputeGrossDay(dh as real, nh as real, dayRate, nightRate, bonus, pluses)
            == dh * dayRate + nh * nightRate + bonus + pluses
  {
    assert dh as real * dayRate as real == (dh * dayRate) as real;
    assert nh as real * nightRate as real == (nh * nightRate) as real;
    RoundIntegral(dh * dayRate);
    RoundIntegral(nh * nightRate);
  }

  /** Eight day hours at 10.00 an hour and no extras give 80.00. */
  lemma GrossDayExample()
    ensures ComputeGrossDay(8.0, 0.0, 1000, 1200, 0, 0) == 8000
  {
    GrossDayWholeHours(8, 0, 1000, 1200, 0, 0);
  }

  // ---------------------------------------------------------------------------
  // Owner-scoped lookups

  /** `get_company(user, company_id)`: the company with that id owned by that
      user. */
  function GetCompany(companies: seq<Company>, user: Id, companyId: Id): (r: Result<Company>)
    ensures r.Ok? ==> r.value in companies && r.value.id == companyId && r.value.userId == user
    ensures r.Err? <==> forall i :: 0 <= i < |companies| ==>
      !(companies[i].id == companyId && companies[i].userId == user)
    ensures r.Err? ==> r.error == CompanyNotFound
  {
    if companies == [] then Err(CompanyNotFound)
    else if companies[0].id == companyId && companies[0].userId == user then Ok(companies[0])
    else
      var r := GetCompany(companies[1..], user, companyId);
      assert forall i :: 1 <= i < |companies| ==> companies[i] == companies[1..][i - 1];
      r
  }

  /** The debt with that id owned by that user (app/services.py:480-485 and
      app/main.py:1058-1063). */
  function FindDebt(debts: seq<Debt>, user: Id, debtId: Id): (r: Result<Debt>)
    ensures r.Ok? ==> r.value in debts && r.value.id == debtId && r.value.userId == user
    ensures r.Err? <==> forall i :: 0 <= i < |debts| ==> !(debts[i].id == debtId && debts[i].userId == user)
    ensures r.Err? ==> r.error == DebtNotFound
  {
    if debts == [] then Err(DebtNotFound)
    else if debts[0].id == debtId && debts[0].userId == user then Ok(debts[0])
    else
      var r := FindDebt(debts[1..], user, debtId);
      assert forall i :: 1 <= i < |debts| ==> debts[i] == debts[1..][i - 1];
      r
  }

  // ---------------------------------------------------------------------------
  // Monthly income breakdown

  /** The WHERE clause and join key of `month_income_breakdown` for one company. */
  predicate Counted(e: WorkEntry, user: Id, r: DateRange, companyId: Id) {
    e.userId == user && InRange(e.date, r) && e.companyId == companyId
  }

  predicate HasEntries(entries: seq<WorkEntry>, user: Id, r: DateRange, companyId: Id) {
    exists i :: 0 <= i < |entries| && Counted(entries[i], user, r, companyId)
  }

  /** `SUM(w.bruto_dia_cents)` of one company's group: the stored gross. */
  function GrossOf(entries: seq<WorkEntry>, user: Id, r: DateRange, companyId: Id): int {
    if entries == [] then 0
    else
      var e := entries[|entries| - 1];
      GrossOf(entries[..|entries| - 1], user, r, companyId) + (if Counted(e, user, r, companyId) then e.grossDay else 0)
  }

  /** `SUM(w.anticipos_cents)` of one company's group. */
  function AdvancesOf(entries: seq<WorkEntry>, user: Id, r: DateRange, companyId: Id): int {
    if entries == [] then 0
    else
      var e := entries[|entries| - 1];
      AdvancesOf(entries[..|entries| - 1], user, r, companyId) + (if Counted(e, user, r, companyId) then e.advances else 0)
  }

  /** One result row of the GROUP BY: a company and its two sums. */
  datatype IncomeRow = IncomeRow(company: Company, gross: int, advances: int)

  function RowOf(c: Company, entries: seq<WorkEntry>, user: Id, r: DateRange): IncomeRow {
    IncomeRow(c, GrossOf(entries, user, r, c.id), AdvancesOf(entries, user, r, c.id))
  }

  /** The rows `month_income_breakdown` reads: one per company joined to at
      least one of the user's entries dated in the range. */
  function IncomeRows(companies: seq<Company>, entries: seq<WorkEntry>, user: Id, r: DateRange): (rows: seq<IncomeRow>)
    ensures |rows| <= |companies|
  {
    if companies == [] then []
    else
      var c := companies[|companies| - 1];
      IncomeRows(companies[..|companies| - 1], entries, user, r)
        + (if HasEntries(entries, user, r, c.id) then [RowOf(c, entries, user, r)] else [])
  }

  /** One value of the breakdown dictionary. */
  datatype IncomeItem = IncomeItem(
    companyName: string,
    currency: string,
    gross: int,
    irpf: int,
    otherDeductions: int,
    estimatedNet: int,
    advances: int,
    finalNet: int)

  /** `int(round(bruto * (irpf_porcentaje / 100.0)))`. */
  function Irpf(gross: int, percent: real): (w: int)
    ensures gross as real * (percent / 100.0) - 0.5 <= w as real <= gross as real * (percent / 100.0) + 0.5
    ensures (w as real - gross as real * (percent / 100.0) == 0.5 ||
             gross as real * (percent / 100.0) - w as real == 0.5) ==> w % 2 == 0
  {
    RoundHalfEven(gross as real * (percent / 100.0))
  }

  /** With a percentage in [0, 100], the withholding lies between 0 and the gross. */
  lemma IrpfWithinGross(gross: int, percent: real)
    requires gross >= 0 && 0.0 <= percent <= 100.0
    ensures 0 <= Irpf(gross, percent) <= gross
  {
    var x := gross as real * (percent / 100.0);
    assert 0.0 <= x <= gross as real by {
      assert percent / 100.0 <= 1.0;
    }
  }

  /** The loop body of `month_income_breakdown` for one row. */
  function ItemOf(row: IncomeRow): (it: IncomeItem)
    ensures it.finalNet == row.gross - it.irpf - row.company.otherDeductions - row.advances
  {
    var irpf := Irpf(row.gross, row.company.irpfPercent);
    var estimated := row.gross - irpf - row.company.otherDeductions;
    IncomeItem(row.company.name, row.company.currency, row.gross, irpf, row.company.otherDeductions,
               estimated, row.advances, estimated - row.advances)
  }

  /** `out[company_id] = item` for each row, in order. */
  function RowsToMap(rows: seq<IncomeRow>): (m: map<Id, IncomeItem>)
    ensures forall k :: k in m ==> ItemOfSomeRow(rows, k, m[k])
  {
    if rows == [] then map[]
    else RowsToMap(rows[..|rows| - 1])[rows[|rows| - 1].company.id := ItemOf(rows[|rows| - 1])]
  }

  /** `item` is computed from a row of the company with id `cid`. */
  predicate ItemOfSomeRow(rows: seq<IncomeRow>, cid: Id, item: IncomeItem) {
    exists i :: 0 <= i < |rows| && rows[i].company.id == cid && item == ItemOf(rows[i])
  }

  /** `month_income_breakdown(user, year, month)` over the month's range. */
  function Breakdown(companies: seq<Company>, entries: seq<WorkEntry>, user: Id, r: DateRange): (b: map<Id, IncomeItem>)
    ensures forall cid :: cid in b ==>
      b[cid].estimatedNet == b[cid].gross - b[cid].irpf - b[cid].otherDeductions &&
      b[cid].finalNet == b[cid].estimatedNet - b[cid].advances
    ensures forall cid :: cid in b ==> ItemOfSomeCompany(companies, cid, b[cid])
  {
    var rows := IncomeRows(companies, entries, user, r);
    IncomeRowsAreRowsOf(companies, entries, user, r);
    RowsToMap(rows)
  }

  /** `item` carries the name, currency and deductions of a company with id
      `cid`, and the IRPF of its gross at that company's percentage. */
  predicate ItemOfSomeCompany(companies: seq<Company>, cid: Id, item: IncomeItem) {
    exists i :: 0 <= i < |companies| && companies[i].id == cid &&
      item.companyName == companies[i].name && item.currency == companies[i].currency &&
      item.otherDeductions == companies[i].otherDeductions &&
      item.irpf == Irpf(item.gross, companies[i].irpfPercent)
  }

  /** Each income row is the row of one of the companies. */
  lemma IncomeRowsAreRowsOf(companies: seq<Company>, entries: seq<WorkEntry>, user: Id, r: DateRange)
    ensures forall k :: 0 <= k < |IncomeRows(companies, entries, user, r)| ==>
      exists i :: 0 <= i < |companies| && IncomeRows(companies, entries, user, r)[k] == RowOf(companies[i], entries, user, r)
  {
    var rows := IncomeRows(companies, entries, user, r);
    forall k | 0 <= k < |rows|
      ensures exists i :: 0 <= i < |companies| && rows[k] == RowOf(companies[i], entries, user, r)
    {
      IncomeRowsMembers(companies, entries, user, r, rows[k]);
    }
  }

  predicate UniqueCompanyIds(companies: seq<Company>) {
    forall i, j :: 0 <= i < j < |companies| ==> companies[i].id != companies[j].id
  }

  lemma BreakdownSnoc(companies: seq<Company>, entries: seq<WorkEntry>, user: Id, r: DateRange)
    requires companies != []
    ensures var pre := companies[..|companies| - 1];
            var c := companies[|companies| - 1];
            Breakdown(companies, entries, user, r) ==
              if HasEntries(entries, user, r, c.id)
              then Breakdown(pre, entries, user, r)[c.id := ItemOf(RowOf(c, entries, user, r))]
              else Breakdown(pre, entries, user, r)
  {
    var pre := companies[..|companies| - 1];
    var c := companies[|companies| - 1];
    var rows := IncomeRows(pre, entries, user, r);
    if HasEntries(entries, user, r, c.id) {
      assert (rows + [RowOf(c, entries, user, r)])[..|rows|] == rows;
    } else {
      assert rows + [] == rows;
    }
  }

  /** The breakdown holds exactly the companies that have at least one of the
      user's entries dated in the range. */
  lemma {:induction false} BreakdownKeys(companies: seq<Company>, entries: seq<WorkEntry>, user: Id, r: DateRange, cid: Id)
    ensures cid in Breakdown(companies, entries, user, r) <==>
      exists i :: 0 <= i < |companies| && companies[i].id == cid && HasEntries(entries, user, r, cid)
  {
    if companies != [] {
      var pre := companies[..|companies| - 1];
      BreakdownSnoc(companies, entries, user, r);
      BreakdownKeys(pre, entries, user, r, cid);
      assert forall i :: 0 <= i < |pre| ==> pre[i] == companies[i];
    }
  }

  /** Each company's entry is computed from the sums of the stored gross and
      advances of its counted entries. */
  lemma {:induction false} BreakdownValue(companies: seq<Company>, entries: seq<WorkEntry>, user: Id, r: DateRange, i: int)
    requires UniqueCompanyIds(companies) && 0 <= i < |companies|
    requires HasEntries(entries, user, r, companies[i].id)
    ensures companies[i].id in Breakdown(companies, entries, user, r)
    ensures Breakdown(companies, entries, user, r)[companies[i].id] == ItemOf(RowOf(companies[i], entries, user, r))
  {
    var n := |companies| - 1;
    var pre := companies[..n];
    BreakdownSnoc(companies, entries, user, r);
    if i < n {
      assert pre[i] == companies[i];
      BreakdownValue(pre, entries, user, r, i);
      assert companies[n].id != companies[i].id;
    }
  }

  /** Gross and advances only grow by the entries that are counted. */
  lemma GrossOfSnoc(entries: seq<WorkEntry>, e: WorkEntry, user: Id, r: DateRange, cid: Id)
    ensures GrossOf(entries + [e], user, r, cid) == GrossOf(entries, user, r, cid) + (if Counted(e, user, r, cid) then e.grossDay else 0)
    ensures AdvancesOf(entries + [e], user, r, cid) == AdvancesOf(entries, user, r, cid) + (if Counted(e, user, r, cid) then e.advances else 0)
    ensures HasEntries(entries + [e], user, r, cid) <==> HasEntries(entries, user, r, cid) || Counted(e, user, r, cid)
  {
    assert (entries + [e])[..|entries|] == entries;
    if HasEntries(entries, user, r, cid) {
      var k :| 0 <= k < |entries| && Counted(entries[k], user, r, cid);
      assert (entries + [e])[k] == entries[k];
    }
    if Counted(e, user, r, cid) {
      assert (entries + [e])[|entries|] == e;
    }
  }

  /** An entry outside the range, or of another user, leaves every company's
      rows, and hence the breakdown, unchanged. */
  lemma {:induction false} IncomeRowsIgnoreUncounted(companies: seq<Company>, entries: seq<WorkEntry>, e: WorkEntry, user: Id, r: DateRange)
    requires e.userId != user || !InRange(e.date, r)
    ensures IncomeRows(companies, entries + [e], user, r) == IncomeRows(companies, entries, user, r)
  {
    if companies != [] {
      var c := companies[|companies| - 1];
      GrossOfSnoc(entries, e, user, r, c.id);
      IncomeRowsIgnoreUncounted(companies[..|companies| - 1], entries, e, user, r);
    }
  }

  /** A company that no entry refers to adds no row. */
  lemma IncomeRowsIgnoreUnreferenced(companies: seq<Company>, c: Company, entries: seq<WorkEntry>, user: Id, r: DateRange)
    requires forall i :: 0 <= i < |entries| ==> entries[i].companyId != c.id
    ensures IncomeRows(companies + [c], entries, user, r) == IncomeRows(companies, entries, user, r)
  {
    assert (companies + [c])[..|companies|] == companies;
    assert !HasEntries(entries, user, r, c.id);
  }

  // ---------------------------------------------------------------------------
  // Net income by currency

  /** `(item["currency"], item["netoFinalCents"])` for each breakdown value. */
  function NetRows(rows: seq<IncomeRow>): (pairs: seq<(string, int)>)
    ensures |pairs| == |rows|
    ensures forall i :: 0 <= i < |rows| ==> pairs[i] == (rows[i].company.currency, ItemOf(rows[i]).finalNet)
  {
    seq(|rows|, i requires 0 <= i < |rows| => (rows[i].company.currency, ItemOf(rows[i]).finalNet))
  }

  /** `month_income_net_by_currency(user, year, month)`. */
  function IncomeNetByCurrency(companies: seq<Company>, entries: seq<WorkEntry>, user: Id, r: DateRange): (m: map<string, int>)
    ensures forall cur :: cur in m <==> EarnsIn(companies, entries, user, r, cur)
  {
    NetRowsCurrencies(companies, entries, user, r);
    GroupSum(NetRows(IncomeRows(companies, entries, user, r)))
  }

  lemma {:induction false} IncomeRowsMembers(companies: seq<Company>, entries: seq<WorkEntry>, user: Id, r: DateRange, row: IncomeRow)
    ensures row in IncomeRows(companies, entries, user, r) <==>
      exists i :: 0 <= i < |companies| && HasEntries(entries, user, r, companies[i].id) &&
        row == RowOf(companies[i], entries, user, r)
  {
    if companies != [] {
      var pre := companies[..|companies| - 1];
      IncomeRowsMembers(pre, entries, user, r, row);
      assert forall i :: 0 <= i < |pre| ==> pre[i] == companies[i];
    }
  }

  /** Some company in currency `cur` has entries of the user in the range. */
  predicate EarnsIn(companies: seq<Company>, entries: seq<WorkEntry>, user: Id, r: DateRange, cur: string) {
    exists i :: 0 <= i < |companies| && companies[i].currency == cur && HasEntries(entries, user, r, companies[i].id)
  }

  /** The currencies of the net rows are exactly the currencies of the
      companies with entries in the range. */
  lemma NetRowsCurrencies(companies: seq<Company>, entries: seq<WorkEntry>, user: Id, r: DateRange)
    ensures forall cur :: cur in KeysOf(NetRows(IncomeRows(companies, entries, user, r))) <==> EarnsIn(companies, entries, user, r, cur)
  {
    var rows := IncomeRows(companies, entries, user, r);
    var pairs := NetRows(rows);
    forall cur | cur in KeysOf(pairs)
      ensures exists i :: 0 <= i < |companies| && companies[i].currency == cur && HasEntries(entries, user, r, companies[i].id)
    {
      var k :| 0 <= k < |pairs| && pairs[k].0 == cur;
      IncomeRowsMembers(companies, entries, user, r, rows[k]);
    }
    forall cur | exists i :: 0 <= i < |companies| && companies[i].currency == cur && HasEntries(entries, user, r, companies[i].id)
      ensures cur in KeysOf(pairs)
    {
      var i :| 0 <= i < |companies| && companies[i].currency == cur && HasEntries(entries, user, r, companies[i].id);
      IncomeRowsMembers(companies, entries, user, r, RowOf(companies[i], entries, user, r));
      var k :| 0 <= k < |rows| && rows[k] == RowOf(companies[i], entries, user, r);
      assert pairs[k].0 == cur;
    }
  }

  /** The company ids, in table order. */
  function CompanyIds(companies: seq<Company>): (ids: seq<Id>)
    ensures |ids| == |companies| && forall i :: 0 <= i < |companies| ==> ids[i] == companies[i].id
  {
    seq(|companies|, i requires 0 <= i < |companies| => companies[i].id)
  }

  /** The sum of `netoFinalCents` over the breakdown values, visited by
      company id, whose currency is `cur`. */
  function BreakdownNetFor(b: map<Id, IncomeItem>, ids: seq<Id>, cur: string): int {
    if ids == [] then 0
    else
      var id := ids[|ids| - 1];
      BreakdownNetFor(b, ids[..|ids| - 1], cur) + (if id in b && b[id].currency == cur then b[id].finalNet else 0)
  }

  lemma {:induction false} BreakdownNetForAgree(b1: map<Id, IncomeItem>, b2: map<Id, IncomeItem>, ids: seq<Id>, cur: string)
    requires forall id :: id in ids ==> (id in b1 <==> id in b2) && (id in b1 ==> b1[id] == b2[id])
    ensures BreakdownNetFor(b1, ids, cur) == BreakdownNetFor(b2, ids, cur)
  {
    if ids != [] {
      BreakdownNetForAgree(b1, b2, ids[..|ids| - 1], cur);
    }
  }

  /** What the last company contributes to the currency `cur`. */
  function LastCompanyNet(companies: seq<Company>, entries: seq<WorkEntry>, user: Id, r: DateRange, cur: string): int
    requires companies != []
  {
    var c := companies[|companies| - 1];
    if HasEntries(entries, user, r, c.id) && c.currency == cur then ItemOf(RowOf(c, entries, user, r)).finalNet else 0
  }

  lemma IncomeNetSnoc(companies: seq<Company>, entries: seq<WorkEntry>, user: Id, r: DateRange, cur: string)
    requires companies != []
    ensures Get(IncomeNetByCurrency(companies, entries, user, r), cur) ==
      Get(IncomeNetByCurrency(companies[..|companies| - 1], entries, user, r), cur) + LastCompanyNet(companies, entries, user, r, cur)
  {
    var n := |companies| - 1;
    var c := companies[n];
    var preRows := IncomeRows(companies[..n], entries, user, r);
    var extra := if HasEntries(entries, user, r, c.id) then [RowOf(c, entries, user, r)] else [];
    assert IncomeRows(companies, entries, user, r) == preRows + extra;
    assert NetRows(preRows + extra) == NetRows(preRows) + NetRows(extra);
    SumForConcat(NetRows(preRows), NetRows(extra), cur);
    if extra != [] {
      assert NetRows(extra)[..0] == [];
    } else {
      assert NetRows(extra) == [];
    }
  }

  lemma BreakdownNetSnoc(companies: seq<Company>, entries: seq<WorkEntry>, user: Id, r: DateRange, cur: string)
    requires companies != [] && UniqueCompanyIds(companies)
    ensures BreakdownNetFor(Breakdown(companies, entries, user, r), CompanyIds(companies), cur) ==
      BreakdownNetFor(Breakdown(companies[..|companies| - 1], entries, user, r), CompanyIds(companies[..|companies| - 1]), cur)
      + LastCompanyNet(companies, entries, user, r, cur)
  {
    var n := |companies| - 1;
    var pre := companies[..n];
    var c := companies[n];
    var ids := CompanyIds(companies);
    var preIds := CompanyIds(pre);
    assert ids[..n] == preIds;
    assert c.id !in preIds by {
      assert forall i :: 0 <= i < n ==> preIds[i] == companies[i].id != companies[n].id;
    }
    var b := Breakdown(companies, entries, user, r);
    var bPre := Breakdown(pre, entries, user, r);
    BreakdownSnoc(companies, entries, user, r);
    BreakdownNetForAgree(b, bPre, preIds, cur);
    if !HasEntries(entries, user, r, c.id) {
      BreakdownKeys(pre, entries, user, r, c.id);
      assert forall i :: 0 <= i < n ==> pre[i].id == preIds[i];
    }
  }

  /** `month_income_net_by_currency[cur]` is the sum of the final net of the
      breakdown's companies whose currency is `cur`. */
  lemma {:induction false} IncomeNetIsBreakdownSum(companies: seq<Company>, entries: seq<WorkEntry>, user: Id, r: DateRange, cur: string)
    requires UniqueCompanyIds(companies)
    ensures Get(IncomeNetByCurrency(companies, entries, user, r), cur) ==
      BreakdownNetFor(Breakdown(companies, entries, user, r), CompanyIds(companies), cur)
  {
    if companies == [] {
      assert IncomeRows(companies, entries, user, r) == [];
      assert NetRows([]) == [];
    } else {
      var n := |companies| - 1;
      var pre := companies[..n];
      assert UniqueCompanyIds(pre) by {
        assert forall i :: 0 <= i < n ==> pre[i] == companies[i];
      }
      IncomeNetIsBreakdownSum(pre, entries, user, r, cur);
      IncomeNetSnoc(companies, entries, user, r, cur);
      BreakdownNetSnoc(companies, entries, user, r, cur);
    }
  }

  // ---------------------------------------------------------------------------
  // Expenses by currency

  /** The WHERE clause of the two expense queries; `onlyNotInBank` adds
      `AND afecta_banco = 0`. */
  predicate ExpenseCounted(e: Expense, user: Id, r: DateRange, onlyNotInBank: bool) {
    e.userId == user && InRange(e.date, r) && (!onlyNotInBank || !e.affectsBank)
  }

  /** The (currency, amount_cents) rows the expense queries group. */
  function ExpenseRows(expenses: seq<Expense>, user: Id, r: DateRange, onlyNotInBank: bool): seq<(string, int)> {
    if expenses == [] then []
    else
      var e := expenses[|expenses| - 1];
      ExpenseRows(expenses[..|expenses| - 1], user, r, onlyNotInBank)
        + (if ExpenseCounted(e, user, r, onlyNotInBank) then [(e.currency, e.amount)] else [])
  }

  /** `month_expenses_by_currency(user, year, month)`. */
  function ExpensesByCurrency(expenses: seq<Expense>, user: Id, r: DateRange): (m: map<string, int>)
    ensures forall cur :: cur in m <==> SpendsIn(expenses, user, r, false, cur)
    ensures AmountsNonNegative(expenses, user) ==> forall cur :: cur in m ==> m[cur] >= 0
  {
    ExpenseRowsKeys(expenses, user, r, false);
    ExpenseRowsNonNegative(expenses, user, r, false);
    GroupSum(ExpenseRows(expenses, user, r, false))
  }

  /** `month_expenses_not_in_bank_by_currency(user, year, month)`. */
  function ExpensesNotInBankByCurrency(expenses: seq<Expense>, user: Id, r: DateRange): (m: map<string, int>)
    ensures forall cur :: cur in m <==> SpendsIn(expenses, user, r, true, cur)
    ensures AmountsNonNegative(expenses, user) ==> forall cur :: cur in m ==> m[cur] >= 0
  {
    ExpenseRowsKeys(expenses, user, r, true);
    ExpenseRowsNonNegative(expenses, user, r, true);
    GroupSum(ExpenseRows(expenses, user, r, true))
  }

  /** Some counted expense of the user is in currency `cur`. */
  predicate SpendsIn(expenses: seq<Expense>, user: Id, r: DateRange, onlyNotInBank: bool, cur: string) {
    exists i :: 0 <= i < |expenses| && ExpenseCounted(expenses[i], user, r, onlyNotInBank) && expenses[i].currency == cur
  }

  /** Every expense amount of the user is non-negative. */
  predicate AmountsNonNegative(expenses: seq<Expense>, user: Id) {
    forall i :: 0 <= i < |expenses| && expenses[i].userId == user ==> expenses[i].amount >= 0
  }

  /** The currencies of the grouped rows are those of the counted expenses. */
  lemma {:induction false} ExpenseRowsKeys(expenses: seq<Expense>, user: Id, r: DateRange, onlyNotInBank: bool)
    ensures forall cur :: cur in KeysOf(ExpenseRows(expenses, user, r, onlyNotInBank)) <==> SpendsIn(expenses, user, r, onlyNotInBank, cur)
  {
    if expenses != [] {
      var pre := expenses[..|expenses| - 1];
      var e := expenses[|expenses| - 1];
      var tail := if ExpenseCounted(e, user, r, onlyNotInBank) then [(e.currency, e.amount)] else [];
      ExpenseRowsKeys(pre, user, r, onlyNotInBank);
      KeysOfAppend(ExpenseRows(pre, user, r, onlyNotInBank), tail);
      assert forall i :: 0 <= i < |pre| ==> pre[i] == expenses[i];
      forall cur | SpendsIn(expenses, user, r, onlyNotInBank, cur)
        ensures cur in KeysOf(ExpenseRows(expenses, user, r, onlyNotInBank))
      {
        var i :| 0 <= i < |expenses| && ExpenseCounted(expenses[i], user, r, onlyNotInBank) && expenses[i].currency == cur;
        if i == |expenses| - 1 {
          assert tail[0].0 == cur;
        } else {
          assert pre[i] == expenses[i];
        }
      }
    } else {
      assert ExpenseRows(expenses, user, r, onlyNotInBank) == [];
    }
  }

  /** With the user's amounts non-negative, each grouped total is too. */
  lemma ExpenseRowsNonNegative(expenses: seq<Expense>, user: Id, r: DateRange, onlyNotInBank: bool)
    ensures AmountsNonNegative(expenses, user) ==> forall cur :: SumFor(ExpenseRows(expenses, user, r, onlyNotInBank), cur) >= 0
  {
    if AmountsNonNegative(expenses, user) {
      ExpenseRowAmountsNonNegative(expenses, user, r, onlyNotInBank);
      forall cur ensures SumFor(ExpenseRows(expenses, user, r, onlyNotInBank), cur) >= 0 {
        SumForNonNegative(ExpenseRows(expenses, user, r, onlyNotInBank), cur);
      }
    }
  }

  /** With the user's amounts non-negative, every grouped row's amount is. */
  lemma {:induction false} ExpenseRowAmountsNonNegative(expenses: seq<Expense>, user: Id, r: DateRange, onlyNotInBank: bool)
    requires AmountsNonNegative(expenses, user)
    ensures forall k :: 0 <= k < |ExpenseRows(expenses, user, r, onlyNotInBank)| ==>
      ExpenseRows(expenses, user, r, onlyNotInBank)[k].1 >= 0
  {
    if expenses != [] {
      var pre := expenses[..|expenses| - 1];
      var e := expenses[|expenses| - 1];
      assert AmountsNonNegative(pre, user) by {
        forall i | 0 <= i < |pre| && pre[i].userId == user ensures pre[i].amount >= 0 {
          assert pre[i] == expenses[i];
        }
      }
      ExpenseRowAmountsNonNegative(pre, user, r, onlyNotInBank);
      var tail := if ExpenseCounted(e, user, r, onlyNotInBank) then [(e.currency, e.amount)] else [];
      assert ExpenseRows(expenses, user, r, onlyNotInBank) == ExpenseRows(pre, user, r, onlyNotInBank) + tail;
      assert ExpenseCounted(e, user, r, onlyNotInBank) ==> e.amount >= 0;
    } else {
      assert ExpenseRows(expenses, user, r, onlyNotInBank) == [];
    }
  }

  lemma {:induction false} NotInBankRowsWithin(expenses: seq<Expense>, user: Id, r: DateRange, cur: string)
    ensures KeysOf(ExpenseRows(expenses, user, r, true)) <= KeysOf(ExpenseRows(expenses, user, r, false))
    ensures (forall i :: 0 <= i < |expenses| && expenses[i].userId == user ==> expenses[i].amount >= 0) ==>
      SumFor(ExpenseRows(expenses, user, r, true), cur) <= SumFor(ExpenseRows(expenses, user, r, false), cur)
  {
    if expenses != [] {
      var pre := expenses[..|expenses| - 1];
      var e := expenses[|expenses| - 1];
      NotInBankRowsWithin(pre, user, r, cur);
      var a, b := ExpenseRows(pre, user, r, true), ExpenseRows(pre, user, r, false);
      var ea := if ExpenseCounted(e, user, r, true) then [(e.currency, e.amount)] else [];
      var eb := if ExpenseCounted(e, user, r, false) then [(e.currency, e.amount)] else [];
      KeysOfAppend(a, ea);
      KeysOfAppend(b, eb);
      SumForAppend(a, ea, cur);
      SumForAppend(b, eb, cur);
      assert forall i :: 0 <= i < |pre| ==> pre[i] == expenses[i];
    }
  }

  lemma KeysOfAppend(a: seq<(string, int)>, b: seq<(string, int)>)
    ensures KeysOf(a + b) == KeysOf(a) + KeysOf(b)
  {
    forall k | k in KeysOf(a + b) ensures k in KeysOf(a) + KeysOf(b) {
      var i :| 0 <= i < |a + b| && (a + b)[i].0 == k;
      if i >= |a| {
        assert b[i - |a|].0 == k;
      }
    }
    forall k | k in KeysOf(a) ensures k in KeysOf(a + b) {
      var i :| 0 <= i < |a| && a[i].0 == k;
      assert (a + b)[i].0 == k;
    }
    forall k | k in KeysOf(b) ensures k in KeysOf(a + b) {
      var i :| 0 <= i < |b| && b[i].0 == k;
      assert (a + b)[|a| + i].0 == k;
    }
  }

  lemma SumForAppend(a: seq<(string, int)>, b: seq<(string, int)>, k: string)
    requires |b| <= 1
    ensures SumFor(a + b, k) == SumFor(a, k) + SumFor(b, k)
  {
    if b == [] {
      assert a + b == a;
    } else {
      assert (a + b)[..|a|] == a;
    }
  }

  /** The expenses kept out of the bank are a part of all expenses: their
      currencies are among the expense currencies and, with non-negative
      amounts, each total is at most the full total. */
  lemma NotInBankWithinExpenses(expenses: seq<Expense>, user: Id, r: DateRange)
    ensures ExpensesNotInBankByCurrency(expenses, user, r).Keys <= ExpensesByCurrency(expenses, user, r).Keys
    ensures (forall i :: 0 <= i < |expenses| && expenses[i].userId == user ==> expenses[i].amount >= 0) ==>
      forall cur :: Get(ExpensesNotInBankByCurrency(expenses, user, r), cur) <= Get(ExpensesByCurrency(expenses, user, r), cur)
  {
    var e := "";
    NotInBankRowsWithin(expenses, user, r, e);
    forall cur ensures (forall i :: 0 <= i < |expenses| && expenses[i].userId == user ==> expenses[i].amount >= 0) ==>
      Get(ExpensesNotInBankByCurrency(expenses, user, r), cur) <= Get(ExpensesByCurrency(expenses, user, r), cur)
    {
      NotInBankRowsWithin(expenses, user, r, cur);
    }
  }

  /** An expense outside the range, or of another user, changes neither
      expense query. */
  lemma ExpenseRowsIgnoreUncounted(expenses: seq<Expense>, e: Expense, user: Id, r: DateRange, onlyNotInBank: bool)
    requires e.userId != user || !InRange(e.date, r)
    ensures ExpenseRows(expenses + [e], user, r, onlyNotInBank) == ExpenseRows(expenses, user, r, onlyNotInBank)
  {
    assert (expenses + [e])[..|expenses|] == expenses;
    assert ExpenseRows(expenses, user, r, onlyNotInBank) + [] == ExpenseRows(expenses, user, r, onlyNotInBank);
  }

  // ---------------------------------------------------------------------------
  // Bank balance

  /** The (currency, amount_cents) rows of the user's bank movements. */
  function MovementRows(movements: seq<BankMovement>, user: Id): seq<(string, int)> {
    if movements == [] then []
    else
      var mv := movements[|movements| - 1];
      MovementRows(movements[..|movements| - 1], user) + (if mv.userId == user then [(mv.currency, mv.amount)] else [])
  }

  /** `bank_balance_by_currency(user)`. */
  function BankBalance(movements: seq<BankMovement>, user: Id): (m: map<string, int>)
    ensures forall cur :: cur in m <==> MovesIn(movements, user, cur)
  {
    MovementRowsKeys(movements, user);
    GroupSum(MovementRows(movements, user))
  }

  /** Some movement of the user is in currency `cur`. */
  predicate MovesIn(movements: seq<BankMovement>, user: Id, cur: string) {
    exists i :: 0 <= i < |movements| && movements[i].userId == user && movements[i].currency == cur
  }

  /** The currencies of the movement rows are those of the user's movements. */
  lemma {:induction false} MovementRowsKeys(movements: seq<BankMovement>, user: Id)
    ensures forall cur :: cur in KeysOf(MovementRows(movements, user)) <==> MovesIn(movements, user, cur)
  {
    if movements != [] {
      var pre := movements[..|movements| - 1];
      var mv := movements[|movements| - 1];
      var tail := if mv.userId == user then [(mv.currency, mv.amount)] else [];
      MovementRowsKeys(pre, user);
      KeysOfAppend(MovementRows(pre, user), tail);
      assert forall i :: 0 <= i < |pre| ==> pre[i] == movements[i];
      forall cur | MovesIn(movements, user, cur)
        ensures cur in KeysOf(MovementRows(movements, user))
      {
        var i :| 0 <= i < |movements| && movements[i].userId == user && movements[i].currency == cur;
        if i == |movements| - 1 {
          assert tail[0].0 == cur;
        } else {
          assert pre[i] == movements[i];
        }
      }
    } else {
      assert MovementRows(movements, user) == [];
    }
  }

  lemma {:induction false} MovementRowsAppend(movements: seq<BankMovement>, more: seq<BankMovement>, user: Id)
    ensures MovementRows(movements + more, user) == MovementRows(movements, user) + MovementRows(more, user)
  {
    if more == [] {
      assert movements + more == movements;
    } else {
      var pre := more[..|more| - 1];
      assert (movements + more)[..|movements + more| - 1] == movements + pre;
      MovementRowsAppend(movements, pre, user);
    }
  }

  lemma {:induction false} SumForConcat(a: seq<(string, int)>, b: seq<(string, int)>, k: string)
    ensures SumFor(a + b, k) == SumFor(a, k) + SumFor(b, k)
  {
    if b == [] {
      assert a + b == a;
    } else {
      var pre := b[..|b| - 1];
      assert (a + b)[..|a + b| - 1] == a + pre;
      SumForConcat(a, pre, k);
    }
  }

  /** Posting movements adds, for each currency, the sum of the posted amounts
      of the user to the balance. */
  lemma BankBalanceAppend(movements: seq<BankMovement>, more: seq<BankMovement>, user: Id)
    ensures forall cur :: (Get(BankBalance(movements + more, user), cur) ==
                           Get(BankBalance(movements, user), cur) + Get(BankBalance(more, user), cur))
  {
    MovementRowsAppend(movements, more, user);
    forall cur ensures Get(BankBalance(movements + more, user), cur) ==
      Get(BankBalance(movements, user), cur) + Get(BankBalance(more, user), cur)
    {
      SumForConcat(MovementRows(movements, user), MovementRows(more, user), cur);
    }
  }

  /** One movement of the user changes the balance of its own currency by its
      amount; a movement of another user changes nothing. */
  lemma BankBalanceOneMovement(mv: BankMovement, user: Id)
    ensures mv.userId == user ==> BankBalance([mv], user) == map[mv.currency := mv.amount]
    ensures mv.userId != user ==> BankBalance([mv], user) == map[]
  {
    assert [mv][..0] == [];
    assert MovementRows([mv], user) == MovementRows([], user) + (if mv.userId == user then [(mv.currency, mv.amount)] else []);
    if mv.userId == user {
      GroupSumSnoc([], (mv.currency, mv.amount));
      assert [] + [(mv.currency, mv.amount)] == [(mv.currency, mv.amount)];
    } else {
      assert MovementRows([mv], user) == [];
    }
  }

  /** One more movement moves its own currency's balance by its amount when
      it is the user's, and nothing else. */
  lemma BankBalanceAppendOne(movements: seq<BankMovement>, mv: BankMovement, user: Id, cur: string)
    ensures Get(BankBalance(movements + [mv], user), cur) ==
      Get(BankBalance(movements, user), cur) + (if mv.userId == user && mv.currency == cur then mv.amount else 0)
  {
    BankBalanceAppend(movements, [mv], user);
    BankBalanceOneMovement(mv, user);
  }

  // ---------------------------------------------------------------------------
  // Debt remaining

  /** `SUM(amount_cents)` of the payments of that debt by that user; 0 when
      there are none. */
  function PaidSum(payments: seq<DebtPayment>, user: Id, debtId: Id): int {
    if payments == [] then 0
    else
      var p := payments[|payments| - 1];
      PaidSum(payments[..|payments| - 1], user, debtId) + (if p.debtId == debtId && p.userId == user then p.amount else 0)
  }

  /** `recalc_debt_remaining_cents(user, debt_id)`: (total, total - paid). */
  function DebtRemaining(debts: seq<Debt>, payments: seq<DebtPayment>, user: Id, debtId: Id): (r: Result<(int, int)>)
    ensures r.Err? <==> FindDebt(debts, user, debtId).Err?
    ensures r.Err? ==> r.error == DebtNotFound
    ensures r.Ok? ==> r.value.0 == FindDebt(debts, user, debtId).value.total
    ensures r.Ok? ==> r.value.0 - r.value.1 == PaidSum(payments, user, debtId)
  {
    match FindDebt(debts, user, debtId)
    case Err(e) => Err(e)
    case Ok(d) => Ok((d.total, d.total - PaidSum(payments, user, debtId)))
  }

  /** With no payments the whole debt remains; each payment of that debt by
      that user lowers the remainder by its amount, and other payments change
      nothing. */
  lemma DebtPaymentEffect(debts: seq<Debt>, payments: seq<DebtPayment>, p: DebtPayment, user: Id, debtId: Id)
    requires DebtRemaining(debts, payments, user, debtId).Ok?
    ensures DebtRemaining(debts, [], user, debtId).value.1 == DebtRemaining(debts, [], user, debtId).value.0
    ensures DebtRemaining(debts, payments + [p], user, debtId).value.1 ==
      DebtRemaining(debts, payments, user, debtId).value.1 - (if p.debtId == debtId && p.userId == user then p.amount else 0)
  {
    assert (payments + [p])[..|payments|] == payments;
  }

  /** The debt test: a debt of 100.00 with one payment of 30.00 has 70.00 left. */
  lemma DebtRemainingExample(user: Id, debtId: Id, paymentId: Id, day: Date)
    ensures DebtRemaining([Debt(debtId, user, "Banco", 10000, "EUR")],
                          [DebtPayment(paymentId, user, debtId, day, 3000)], user, debtId)
            == Ok((10000, 7000))
  {
    var ds := [Debt(debtId, user, "Banco", 10000, "EUR")];
    var ps := [DebtPayment(paymentId, user, debtId, day, 3000)];
    assert FindDebt(ds, user, debtId) == Ok(ds[0]);
    assert ps[..0] == [];
    assert PaidSum(ps, user, debtId) == 3000;
  }

  // ---------------------------------------------------------------------------
  // Month closure postings

  /** `amounts_by_currency`: net income minus expenses kept out of the bank,
      over the union of their currencies. */
  function ClosureAmounts(incomeNet: map<string, int>, notInBank: map<string, int>): (a: map<string, int>)
    ensures a.Keys == incomeNet.Keys + notInBank.Keys
    ensures forall cur :: Get(a, cur) == Get(incomeNet, cur) - Get(notInBank, cur)
  {
    Combine(incomeNet, notInBank, true)
  }

  /** `f"Cierre {year:04d}-{month:02d}"`. */
  function ClosureNote(y: nat, m: nat): (s: string)
    ensures |s| >= 14 && s[..7] == "Cierre "
    ensures y < 10000 && m < 100 ==>
      |s| == 14 && s[11] == '-' &&
      AllDigits(s[7..11]) && DigitsValue(s[7..11]) == y && AllDigits(s[12..]) && DigitsValue(s[12..]) == m
  {
    var ys, ms := ZeroPad(y, 4), ZeroPad(m, 2);
    var s := "Cierre " + ys + "-" + ms;
    assert s[..7] == "Cierre ";
    assert s[7..7 + |ys|] == ys;
    assert s[8 + |ys|..] == ms;
    assert Pow10(4) == 10000 && Pow10(2) == 100;
    if y < 10000 && m < 100 then
      ZeroPadExact(y, 4);
      ZeroPadExact(m, 2);
      s
    else s
  }

  /** A closure posting as the insert at app/services.py:445-459 writes it. */
  predicate IsClosurePosting(mv: BankMovement, user: Id, closureId: Id, day: Date, note: string) {
    mv.userId == user && mv.date == day && mv.kind == KindMonthClosure &&
    mv.link == ClosureLink(closureId) && mv.note == note
  }

  /** The movements the last loop of `close_month` inserts: one per listed
      currency whose amount is not zero, ids drawn from `firstId` on. */
  function ClosurePostings(currencies: seq<string>, amounts: map<string, int>, user: Id, closureId: Id,
                           day: Date, note: string, firstId: Id): (ps: seq<BankMovement>)
    ensures |ps| <= |currencies|
  {
    if currencies == [] then []
    else
      var cur := currencies[0];
      if Get(amounts, cur) == 0 then
        ClosurePostings(currencies[1..], amounts, user, closureId, day, note, firstId)
      else
        [ClosurePosting(cur, amounts, user, closureId, day, note, firstId)]
          + ClosurePostings(currencies[1..], amounts, user, closureId, day, note, firstId + 1)
  }

  predicate ClosurePostingsShaped(ps: seq<BankMovement>, currencies: seq<string>, amounts: map<string, int>,
                                  user: Id, closureId: Id, day: Date, note: string, firstId: Id) {
    forall i :: 0 <= i < |ps| ==>
      IsClosurePosting(ps[i], user, closureId, day, note) && ps[i].id == firstId + i &&
      ps[i].currency in currencies && ps[i].amount == Get(amounts, ps[i].currency) && ps[i].amount != 0
  }

  /** Each posting is a closure movement of the user with consecutive ids
      from `firstId`, in a listed currency, carrying that currency's non-zero
      amount. */
  lemma {:induction false} ClosurePostingsWellFormed(currencies: seq<string>, amounts: map<string, int>, user: Id,
                                                    closureId: Id, day: Date, note: string, firstId: Id)
    ensures ClosurePostingsShaped(ClosurePostings(currencies, amounts, user, closureId, day, note, firstId),
                                  currencies, amounts, user, closureId, day, note, firstId)
  {
    if currencies != [] {
      var cur := currencies[0];
      var tail := currencies[1..];
      assert forall c :: c in tail ==> c in currencies;
      if Get(amounts, cur) == 0 {
        ClosurePostingsWellFormed(tail, amounts, user, closureId, day, note, firstId);
        var ps := ClosurePostings(tail, amounts, user, closureId, day, note, firstId);
        assert ClosurePostings(currencies, amounts, user, closureId, day, note, firstId) == ps;
        ShapedWiden(ps, tail, currencies, amounts, user, closureId, day, note, firstId);
      } else {
        ClosurePostingsWellFormed(tail, amounts, user, closureId, day, note, firstId + 1);
        var rest := ClosurePostings(tail, amounts, user, closureId, day, note, firstId + 1);
        ShapedWiden(rest, tail, currencies, amounts, user, closureId, day, note, firstId + 1);
        var head := ClosurePosting(cur, amounts, user, closureId, day, note, firstId);
        assert ClosurePostings(currencies, amounts, user, closureId, day, note, firstId) == [head] + rest;
        ShapedCons(head, rest, currencies, amounts, user, closureId, day, note, firstId);
      }
    }
  }

  lemma ShapedWiden(ps: seq<BankMovement>, sub: seq<string>, currencies: seq<string>, amounts: map<string, int>,
                    user: Id, closureId: Id, day: Date, note: string, firstId: Id)
    requires ClosurePostingsShaped(ps, sub, amounts, user, closureId, day, note, firstId)
    requires forall c :: c in sub ==> c in currencies
    ensures ClosurePostingsShaped(ps, currencies, amounts, user, closureId, day, note, firstId)
  {
  }

  lemma ShapedCons(head: BankMovement, rest: seq<BankMovement>, currencies: seq<string>, amounts: map<string, int>,
                   user: Id, closureId: Id, day: Date, note: string, firstId: Id)
    requires ClosurePostingsShaped(rest, currencies, amounts, user, closureId, day, note, firstId + 1)
    requires IsClosurePosting(head, user, closureId, day, note) && head.id == firstId
    requires head.currency in currencies && head.amount == Get(amounts, head.currency) && head.amount != 0
    ensures ClosurePostingsShaped([head] + rest, currencies, amounts, user, closureId, day, note, firstId)
  {
    var ps := [head] + rest;
    assert forall i :: 1 <= i < |ps| ==> ps[i] == rest[i - 1];
  }

  function ClosurePosting(cur: string, amounts: map<string, int>, user: Id, closureId: Id,
                          day: Date, note: string, id: Id): BankMovement {
    BankMovement(id, user, day, KindMonthClosure, Get(amounts, cur), cur, note, ClosureLink(closureId))
  }

  lemma ClosurePostingsUnfold(currencies: seq<string>, amounts: map<string, int>, user: Id,
                              closureId: Id, day: Date, note: string, firstId: Id)
    requires currencies != []
    ensures ClosurePostings(currencies, amounts, user, closureId, day, note, firstId) ==
      if Get(amounts, currencies[0]) == 0
      then ClosurePostings(currencies[1..], amounts, user, closureId, day, note, firstId)
      else [ClosurePosting(currencies[0], amounts, user, closureId, day, note, firstId)]
           + ClosurePostings(currencies[1..], amounts, user, closureId, day, note, firstId + 1)
  {
  }

  /** The movement one currency contributes: none for a zero amount. */
  function ClosureTail(cur: string, amounts: map<string, int>, user: Id, closureId: Id,
                       day: Date, note: string, id: Id): seq<BankMovement> {
    if Get(amounts, cur) == 0 then [] else [ClosurePosting(cur, amounts, user, closureId, day, note, id)]
  }

  lemma ClosureTailShape(cur: string, amounts: map<string, int>, user: Id, closureId: Id,
                         day: Date, note: string, id: Id)
    ensures Get(amounts, cur) == 0 ==> ClosureTail(cur, amounts, user, closureId, day, note, id) == []
    ensures Get(amounts, cur) != 0 ==>
      ClosureTail(cur, amounts, user, closureId, day, note, id) == [ClosurePosting(cur, amounts, user, closureId, day, note, id)]
  {
  }

  /** Posting one more currency appends its movement, if any, after the
      others, with the next id. */
  lemma {:induction false} ClosurePostingsSnoc(currencies: seq<string>, cur: string, amounts: map<string, int>, user: Id,
                                              closureId: Id, day: Date, note: string, firstId: Id)
    ensures var ps := ClosurePostings(currencies, amounts, user, closureId, day, note, firstId);
      ClosurePostings(currencies + [cur], amounts, user, closureId, day, note, firstId) ==
        ps + ClosureTail(cur, amounts, user, closureId, day, note, firstId + |ps|)
  {
    if currencies == [] {
      assert [] + [cur] == [cur];
      ClosurePostingsUnfold([cur], amounts, user, closureId, day, note, firstId);
    } else {
      var c := currencies[0];
      var rest := currencies[1..];
      assert (currencies + [cur])[1..] == rest + [cur];
      ClosurePostingsUnfold(currencies + [cur], amounts, user, closureId, day, note, firstId);
      ClosurePostingsUnfold(currencies, amounts, user, closureId, day, note, firstId);
      if Get(amounts, c) == 0 {
        ClosurePostingsSnoc(rest, cur, amounts, user, closureId, day, note, firstId);
      } else {
        ClosurePostingsSnoc(rest, cur, amounts, user, closureId, day, note, firstId + 1);
        var head := [ClosurePosting(c, amounts, user, closureId, day, note, firstId)];
        var ps := ClosurePostings(rest, amounts, user, closureId, day, note, firstId + 1);
        var tail := ClosureTail(cur, amounts, user, closureId, day, note, firstId + 1 + |ps|);
        assert head + (ps + tail) == (head + ps) + tail;
      }
    }
  }

  /** Every listed currency with a non-zero amount is posted. */
  lemma {:induction false} ClosurePostingsCover(currencies: seq<string>, amounts: map<string, int>, user: Id,
                                               closureId: Id, day: Date, note: string, firstId: Id, cur: string)
    requires cur in currencies && Get(amounts, cur) != 0
    ensures var ps := ClosurePostings(currencies, amounts, user, closureId, day, note, firstId);
      exists i :: 0 <= i < |ps| && ps[i].currency == cur
  {
    var ps := ClosurePostings(currencies, amounts, user, closureId, day, note, firstId);
    var c := currencies[0];
    var tail := currencies[1..];
    ClosurePostingsUnfold(currencies, amounts, user, closureId, day, note, firstId);
    if c == cur {
      assert ps[0].currency == cur;
    } else {
      assert cur in tail;
      if Get(amounts, c) == 0 {
        ClosurePostingsCover(tail, amounts, user, closureId, day, note, firstId, cur);
      } else {
        var rest := ClosurePostings(tail, amounts, user, closureId, day, note, firstId + 1);
        ClosurePostingsCover(tail, amounts, user, closureId, day, note, firstId + 1, cur);
        var i :| 0 <= i < |rest| && rest[i].currency == cur;
        assert ps[i + 1] == rest[i];
      }
    }
  }

  /** With distinct currencies, no currency is posted twice. */
  lemma {:induction false} ClosurePostingsDistinct(currencies: seq<string>, amounts: map<string, int>, user: Id,
                                                  closureId: Id, day: Date, note: string, firstId: Id)
    requires forall i, j :: 0 <= i < j < |currencies| ==> currencies[i] != currencies[j]
    ensures var ps := ClosurePostings(currencies, amounts, user, closureId, day, note, firstId);
      forall i, j :: 0 <= i < j < |ps| ==> ps[i].currency != ps[j].currency
  {
    if currencies != [] {
      var c := currencies[0];
      var tail := currencies[1..];
      assert forall i, j :: 0 <= i < j < |tail| ==> tail[i] == currencies[i + 1] && tail[j] == currencies[j + 1];
      assert c !in tail;
      ClosurePostingsUnfold(currencies, amounts, user, closureId, day, note, firstId);
      if Get(amounts, c) == 0 {
        ClosurePostingsDistinct(tail, amounts, user, closureId, day, note, firstId);
        assert ClosurePostings(currencies, amounts, user, closureId, day, note, firstId)
            == ClosurePostings(tail, amounts, user, closureId, day, note, firstId);
      } else {
        ClosurePostingsDistinct(tail, amounts, user, closureId, day, note, firstId + 1);
        ClosurePostingsWellFormed(tail, amounts, user, closureId, day, note, firstId + 1);
        var rest := ClosurePostings(tail, amounts, user, closureId, day, note, firstId + 1);
        var ps := [ClosurePosting(c, amounts, user, closureId, day, note, firstId)] + rest;
        assert ps == ClosurePostings(currencies, amounts, user, closureId, day, note, firstId);
        forall i, j | 0 <= i < j < |ps| ensures ps[i].currency != ps[j].currency {
          assert ps[j] == rest[j - 1];
          if i > 0 {
            assert ps[i] == rest[i - 1];
          } else {
            assert ps[0].currency == c;
            assert rest[j - 1].currency in tail;
          }
        }
      }
    }
  }

  /** The closure postings move the user's bank balance of each listed
      currency by exactly that currency's closing amount. */
  lemma {:induction false} ClosurePostingsBalance(currencies: seq<string>, amounts: map<string, int>, user: Id,
                                                 closureId: Id, day: Date, note: string, firstId: Id, cur: string)
    requires forall i, j :: 0 <= i < j < |currencies| ==> currencies[i] != currencies[j]
    ensures Get(BankBalance(ClosurePostings(currencies, amounts, user, closureId, day, note, firstId), user), cur)
            == if cur in currencies then Get(amounts, cur) else 0
  {
    var ps := ClosurePostings(currencies, amounts, user, closureId, day, note, firstId);
    if currencies != [] {
      var c := currencies[0];
      var tail := currencies[1..];
      assert forall i, j :: 0 <= i < j < |tail| ==> tail[i] == currencies[i + 1] && tail[j] == currencies[j + 1];
      var next := if Get(amounts, c) == 0 then firstId else firstId + 1;
      var rest := ClosurePostings(tail, amounts, user, closureId, day, note, next);
      ClosurePostingsBalance(tail, amounts, user, closureId, day, note, next, cur);
      assert c !in tail;
      if Get(amounts, c) != 0 {
        var head := ClosurePosting(c, amounts, user, closureId, day, note, firstId);
        assert ps == [head] + rest;
        MovementRowsAppend([head], rest, user);
        BankBalanceOneMovement(head, user);
        SumForConcat(MovementRows([head], user), MovementRows(rest, user), cur);
      }
    } else {
      assert ps == [];
    }
  }

  // ---------------------------------------------------------------------------
  // Closed months are frozen

  /** Everything the monthly reports read for one user and month. */
  datatype MonthFigures = MonthFigures(
    breakdown: map<Id, IncomeItem>,
    incomeNet: map<string, int>,
    expenses: map<string, int>,
    notInBank: map<string, int>)

  function FiguresOf(companies: seq<Company>, entries: seq<WorkEntry>, expenses: seq<Expense>, user: Id, y: int, m: int): MonthFigures
    requires ValidPeriod(y, m)
  {
    var r := MonthRange(y, m).value;
    MonthFigures(Breakdown(companies, entries, user, r), IncomeNetByCurrency(companies, entries, user, r),
                 ExpensesByCurrency(expenses, user, r), ExpensesNotInBankByCurrency(expenses, user, r))
  }

  /** No closed month's figures differ between the two states. */
  ghost predicate ClosedMonthsFrozen(closures: seq<Closure>,
                                     c0: seq<Company>, e0: seq<WorkEntry>, x0: seq<Expense>,
                                     c1: seq<Company>, e1: seq<WorkEntry>, x1: seq<Expense>) {
    forall u, y, m :: IsMonthClosed(closures, u, y, m) && ValidPeriod(y, m) ==>
      FiguresOf(c1, e1, x1, u, y, m) == FiguresOf(c0, e0, x0, u, y, m)
  }

  /** A work entry dated in an open month leaves every closed month's figures
      as they were. */
  lemma AppendEntryKeepsClosedMonths(closures: seq<Closure>, companies: seq<Company>, entries: seq<WorkEntry>,
                                     expenses: seq<Expense>, e: WorkEntry)
    requires ValidDate(e.date) && !IsMonthClosed(closures, e.userId, e.date.year, e.date.month)
    ensures ClosedMonthsFrozen(closures, companies, entries, expenses, companies, entries + [e], expenses)
  {
    forall u, y, m | IsMonthClosed(closures, u, y, m) && ValidPeriod(y, m)
      ensures FiguresOf(companies, entries + [e], expenses, u, y, m) == FiguresOf(companies, entries, expenses, u, y, m)
    {
      MonthRangeContains(y, m, e.date);
      IncomeRowsIgnoreUncounted(companies, entries, e, u, MonthRange(y, m).value);
    }
  }

  /** So does an expense dated in an open month. */
  lemma AppendExpenseKeepsClosedMonths(closures: seq<Closure>, companies: seq<Company>, entries: seq<WorkEntry>,
                                       expenses: seq<Expense>, x: Expense)
    requires ValidDate(x.date) && !IsMonthClosed(closures, x.userId, x.date.year, x.date.month)
    ensures ClosedMonthsFrozen(closures, companies, entries, expenses, companies, entries, expenses + [x])
  {
    forall u, y, m | IsMonthClosed(closures, u, y, m) && ValidPeriod(y, m)
      ensures FiguresOf(companies, entries, expenses + [x], u, y, m) == FiguresOf(companies, entries, expenses, u, y, m)
    {
      MonthRangeContains(y, m, x.date);
      ExpenseRowsIgnoreUncounted(expenses, x, u, MonthRange(y, m).value, false);
      ExpenseRowsIgnoreUncounted(expenses, x, u, MonthRange(y, m).value, true);
    }
  }

  /** So does a new company that no entry refers to, in every month. */
  lemma AppendCompanyKeepsClosedMonths(closures: seq<Closure>, companies: seq<Company>, entries: seq<WorkEntry>,
                                       expenses: seq<Expense>, c: Company)
    requires forall i :: 0 <= i < |entries| ==> entries[i].companyId != c.id
    ensures ClosedMonthsFrozen(closures, companies, entries, expenses, companies + [c], entries, expenses)
  {
    forall u, y, m | IsMonthClosed(closures, u, y, m) && ValidPeriod(y, m)
      ensures FiguresOf(companies + [c], entries, expenses, u, y, m) == FiguresOf(companies, entries, expenses, u, y, m)
    {
      IncomeRowsIgnoreUnreferenced(companies, c, entries, u, MonthRange(y, m).value);
    }
  }
}

