/** The per-user ledger of app/services.py and the creating handlers of
    app/main.py: the database becomes one object whose tables are sequences
    of rows, only ever appended to, and whose id supply replaces `new_id`. */
module Ledgers {
  import opened Common
  import opened Text
  import opened Money
  import opened Calendar
  import opened Tables
  import opened Grouping
  import opened Queries
  import opened Handlers

  // ---------------------------------------------------------------------------
  // What `close_month` posts

  /** `amounts_by_currency` of `close_month(user, y, m)`. */
  function ClosingAmounts(companies: seq<Company>, entries: seq<WorkEntry>, expenses: seq<Expense>,
                          user: Id, y: int, m: int): (a: map<string, int>)
    requires ValidPeriod(y, m)
    ensures var r := MonthRange(y, m).value;
      forall cur :: cur in a <==> EarnsIn(companies, entries, user, r, cur) || SpendsIn(expenses, user, r, true, cur)
    ensures var r := MonthRange(y, m).value;
      forall cur :: Get(a, cur) ==
        Get(IncomeNetByCurrency(companies, entries, user, r), cur) - Get(ExpensesNotInBankByCurrency(expenses, user, r), cur)
  {
    var r := MonthRange(y, m).value;
    ClosureAmounts(IncomeNetByCurrency(companies, entries, user, r), ExpensesNotInBankByCurrency(expenses, user, r))
  }

  /** `end_exclusive - timedelta(days=1)`: the month's last day. */
  function ClosingDay(y: int, m: int): (d: Date)
    requires ValidPeriod(y, m)
    ensures d == Date(y, m, DaysInMonth(y, m)) && ValidDate(d)
  {
    LastDayOfMonth(y, m);
    PrevDay(MonthRange(y, m).value.endExclusive)
  }

  /** The movements `close_month` inserts after the closure `closureId`. */
  function MonthClosurePostings(companies: seq<Company>, entries: seq<WorkEntry>, expenses: seq<Expense>,
                                user: Id, y: int, m: int, closureId: Id, firstId: Id): (ps: seq<BankMovement>)
    requires ValidPeriod(y, m)
    ensures |ps| <= |SupportedList|
    ensures forall i :: 0 <= i < |ps| ==>
      IsClosurePosting(ps[i], user, closureId, ClosingDay(y, m), ClosureNote(y, m)) && ps[i].id == firstId + i &&
      ps[i].currency in SupportedCurrencies && ps[i].amount != 0
  {
    SupportedPostingsShape(ClosingAmounts(companies, entries, expenses, user, y, m),
                           user, closureId, ClosingDay(y, m), ClosureNote(y, m), firstId);
    ClosurePostings(SupportedList, ClosingAmounts(companies, entries, expenses, user, y, m),
                    user, closureId, ClosingDay(y, m), ClosureNote(y, m), firstId)
  }

  /** Each closing movement is the user's, dated the month's last day, typed
      `ingresoMesCerrado`, linked to the closure and carries its currency's
      non-zero amount; each supported currency appears exactly when its
      amount is not zero, and at most once. */
  lemma MonthClosurePostingsShape(companies: seq<Company>, entries: seq<WorkEntry>, expenses: seq<Expense>,
                                  user: Id, y: int, m: int, closureId: Id, firstId: Id)
    requires ValidPeriod(y, m)
    ensures var ps := MonthClosurePostings(companies, entries, expenses, user, y, m, closureId, firstId);
            var a := ClosingAmounts(companies, entries, expenses, user, y, m);
      |ps| <= |SupportedList| &&
      (forall i :: 0 <= i < |ps| ==>
        ps[i].id == firstId + i && ps[i].userId == user && ps[i].date == Date(y, m, DaysInMonth(y, m)) &&
        ps[i].kind == KindMonthClosure && ps[i].link == ClosureLink(closureId) &&
        ps[i].currency in SupportedCurrencies && ps[i].amount == Get(a, ps[i].currency) && ps[i].amount != 0) &&
      (forall cur :: cur in SupportedCurrencies ==>
        (Get(a, cur) != 0 <==> exists i :: 0 <= i < |ps| && ps[i].currency == cur)) &&
      (forall i, j :: 0 <= i < j < |ps| ==> ps[i].currency != ps[j].currency)
  {
    var a := ClosingAmounts(companies, entries, expenses, user, y, m);
    SupportedPostingsShape(a, user, closureId, ClosingDay(y, m), ClosureNote(y, m), firstId);
  }

  /** The shape of the closing movements for any amounts and any day. */
  lemma SupportedPostingsShape(a: map<string, int>, user: Id, closureId: Id, day: Date, note: string, firstId: Id)
    ensures var ps := ClosurePostings(SupportedList, a, user, closureId, day, note, firstId);
      |ps| <= |SupportedList| &&
      (forall i :: 0 <= i < |ps| ==>
        IsClosurePosting(ps[i], user, closureId, day, note) && ps[i].id == firstId + i &&
        ps[i].currency in SupportedCurrencies && ps[i].amount == Get(a, ps[i].currency) && ps[i].amount != 0) &&
      (forall cur :: cur in SupportedCurrencies ==>
        (Get(a, cur) != 0 <==> exists i :: 0 <= i < |ps| && ps[i].currency == cur)) &&
      (forall i, j :: 0 <= i < j < |ps| ==> ps[i].currency != ps[j].currency)
  {
    var ps := ClosurePostings(SupportedList, a, user, closureId, day, note, firstId);
    SupportedListMatchesSet();
    ClosurePostingsWellFormed(SupportedList, a, user, closureId, day, note, firstId);
    forall cur | cur in SupportedCurrencies && Get(a, cur) != 0
      ensures exists i :: 0 <= i < |ps| && ps[i].currency == cur
    {
      ClosurePostingsCover(SupportedList, a, user, closureId, day, note, firstId, cur);
    }
    ClosurePostingsDistinct(SupportedList, a, user, closureId, day, note, firstId);
  }

  /** After the closure, each supported currency's bank balance has moved by
      that currency's income net minus the expenses kept out of the bank;
      other currencies have not moved. */
  lemma MonthClosureBalance(movements: seq<BankMovement>, companies: seq<Company>, entries: seq<WorkEntry>,
                            expenses: seq<Expense>, user: Id, y: int, m: int, closureId: Id, firstId: Id, cur: string)
    requires ValidPeriod(y, m)
    ensures var r := MonthRange(y, m).value;
      Get(BankBalance(movements + MonthClosurePostings(companies, entries, expenses, user, y, m, closureId, firstId), user), cur)
      == Get(BankBalance(movements, user), cur) +
         (if cur in SupportedCurrencies
          then Get(IncomeNetByCurrency(companies, entries, user, r), cur) - Get(ExpensesNotInBankByCurrency(expenses, user, r), cur)
          else 0)
  {
    var ps := MonthClosurePostings(companies, entries, expenses, user, y, m, closureId, firstId);
    SupportedListMatchesSet();
    BankBalanceAppend(movements, ps, user);
    ClosurePostingsBalance(SupportedList, ClosingAmounts(companies, entries, expenses, user, y, m),
                           user, closureId, ClosingDay(y, m), ClosureNote(y, m), firstId, cur);
  }

  // ---------------------------------------------------------------------------
  // The annual projection

  function MonthIncome(companies: seq<Company>, entries: seq<WorkEntry>, user: Id, y: int, m: int): map<string, int>
    requires ValidPeriod(y, m)
  {
    IncomeNetByCurrency(companies, entries, user, MonthRange(y, m).value)
  }

  function MonthExpenses(expenses: seq<Expense>, user: Id, y: int, m: int): map<string, int>
    requires ValidPeriod(y, m)
  {
    ExpensesByCurrency(expenses, user, MonthRange(y, m).value)
  }

  /** One element of the projection's `months`. */
  datatype MonthProjection = MonthProjection(
    month: int,
    incomeNet: map<string, int>,
    expenses: map<string, int>,
    savings: map<string, int>)

  datatype Projection = Projection(
    months: seq<MonthProjection>,
    totalIncome: map<string, int>,
    totalExpenses: map<string, int>,
    totalSavings: map<string, int>)

  predicate ProjectionYear(y: int) {
    2000 <= y <= 2100
  }

  /** Income of months 1..n of year y. */
  function Incomes(companies: seq<Company>, entries: seq<WorkEntry>, user: Id, y: int, n: nat): (s: seq<map<string, int>>)
    requires ProjectionYear(y) && n <= 12
    ensures |s| == n
  {
    if n == 0 then [] else Incomes(companies, entries, user, y, n - 1) + [MonthIncome(companies, entries, user, y, n)]
  }

  /** Expenses of months 1..n of year y. */
  function Expenses(expenses: seq<Expense>, user: Id, y: int, n: nat): (s: seq<map<string, int>>)
    requires ProjectionYear(y) && n <= 12
    ensures |s| == n
  {
    if n == 0 then [] else Expenses(expenses, user, y, n - 1) + [MonthExpenses(expenses, user, y, n)]
  }

  /** The projection rows of months 1..n. */
  function ProjectionMonths(companies: seq<Company>, entries: seq<WorkEntry>, expenses: seq<Expense>,
                            user: Id, y: int, n: nat): (s: seq<MonthProjection>)
    requires ProjectionYear(y) && n <= 12
    ensures |s| == n
  {
    if n == 0 then []
    else
      var inc := MonthIncome(companies, entries, user, y, n);
      var exp := MonthExpenses(expenses, user, y, n);
      ProjectionMonths(companies, entries, expenses, user, y, n - 1) + [MonthProjection(n, inc, exp, Combine(inc, exp, true))]
  }

  /** The whole answer of `api_premium_annual_projection` for a valid year. */
  function AnnualFigures(companies: seq<Company>, entries: seq<WorkEntry>, expenses: seq<Expense>, user: Id, y: int): (p: Projection)
    requires ProjectionYear(y)
    ensures |p.months| == 12
    ensures forall i :: 0 <= i < 12 ==> MonthFigures(p.months[i], companies, entries, expenses, user, y, i + 1)
    ensures forall k :: Get(p.totalSavings, k) == Get(p.totalIncome, k) - Get(p.totalExpenses, k)
  {
    var ms := ProjectionMonths(companies, entries, expenses, user, y, 12);
    ProjectionMonthsShape(companies, entries, expenses, user, y);
    var ti := TotalOver(Incomes(companies, entries, user, y, 12));
    var te := TotalOver(Expenses(expenses, user, y, 12));
    Projection(ms, ti, te, Combine(ti, te, true))
  }

  lemma {:induction false} ProjectionMonthsAt(companies: seq<Company>, entries: seq<WorkEntry>, expenses: seq<Expense>,
                                              user: Id, y: int, n: nat, i: int)
    requires ProjectionYear(y) && n <= 12 && 0 <= i < n
    ensures var p := ProjectionMonths(companies, entries, expenses, user, y, n)[i];
      p.month == i + 1 &&
      p.incomeNet == Incomes(companies, entries, user, y, n)[i] &&
      p.expenses == Expenses(expenses, user, y, n)[i] &&
      p.savings == Combine(p.incomeNet, p.expenses, true)
  {
    var inc := MonthIncome(companies, entries, user, y, n);
    var exp := MonthExpenses(expenses, user, y, n);
    var pre := ProjectionMonths(companies, entries, expenses, user, y, n - 1);
    var ipre := Incomes(companies, entries, user, y, n - 1);
    var epre := Expenses(expenses, user, y, n - 1);
    assert ProjectionMonths(companies, entries, expenses, user, y, n) == pre + [MonthProjection(n, inc, exp, Combine(inc, exp, true))];
    assert Incomes(companies, entries, user, y, n) == ipre + [inc];
    assert Expenses(expenses, user, y, n) == epre + [exp];
    if i < n - 1 {
      ProjectionMonthsAt(companies, entries, expenses, user, y, n - 1, i);
      assert (pre + [MonthProjection(n, inc, exp, Combine(inc, exp, true))])[i] == pre[i];
      assert (ipre + [inc])[i] == ipre[i];
      assert (epre + [exp])[i] == epre[i];
    }
  }

  /** The projection covers months 1..12 with each month's own figures and
      savings; each yearly total is, key by key, the sum of the twelve
      monthly values, and the yearly savings are the sum of the monthly
      savings. */
  lemma AnnualFiguresSums(companies: seq<Company>, entries: seq<WorkEntry>, expenses: seq<Expense>, user: Id, y: int, k: string)
    requires ProjectionYear(y)
    ensures var p := AnnualFigures(companies, entries, expenses, user, y);
      |p.months| == 12 &&
      (forall i :: 0 <= i < 12 ==>
        p.months[i].month == i + 1 &&
        p.months[i].incomeNet == MonthIncome(companies, entries, user, y, i + 1) &&
        p.months[i].expenses == MonthExpenses(expenses, user, y, i + 1) &&
        p.months[i].savings == Combine(p.months[i].incomeNet, p.months[i].expenses, true)) &&
      Get(p.totalIncome, k) == SumAt(Incomes(companies, entries, user, y, 12), k) &&
      Get(p.totalExpenses, k) == SumAt(Expenses(expenses, user, y, 12), k) &&
      p.totalSavings == TotalOver(Diffs(Incomes(companies, entries, user, y, 12), Expenses(expenses, user, y, 12)))
  {
    var inc := Incomes(companies, entries, user, y, 12);
    var exp := Expenses(expenses, user, y, 12);
    forall i | 0 <= i < 12
      ensures inc[i] == MonthIncome(companies, entries, user, y, i + 1) && exp[i] == MonthExpenses(expenses, user, y, i + 1)
    {
      IncomesAt(companies, entries, user, y, 12, i);
      ExpensesAt(expenses, user, y, 12, i);
    }
    forall i | 0 <= i < 12
      ensures var p := ProjectionMonths(companies, entries, expenses, user, y, 12)[i];
        p.month == i + 1 && p.incomeNet == inc[i] && p.expenses == exp[i] && p.savings == Combine(p.incomeNet, p.expenses, true)
    {
      ProjectionMonthsAt(companies, entries, expenses, user, y, 12, i);
    }
    TotalOverIsSum(inc, k);
    TotalOverIsSum(exp, k);
    TotalOfDiffs(inc, exp);
  }

  lemma {:induction false} IncomesAt(companies: seq<Company>, entries: seq<WorkEntry>,
                                     user: Id, y: int, n: nat, i: int)
    requires ProjectionYear(y) && n <= 12 && 0 <= i < n
    ensures Incomes(companies, entries, user, y, n)[i] == MonthIncome(companies, entries, user, y, i + 1)
  {
    var pre := Incomes(companies, entries, user, y, n - 1);
    assert Incomes(companies, entries, user, y, n) == pre + [MonthIncome(companies, entries, user, y, n)];
    if i < n - 1 {
      IncomesAt(companies, entries, user, y, n - 1, i);
      assert (pre + [MonthIncome(companies, entries, user, y, n)])[i] == pre[i];
    }
  }

  lemma {:induction false} ExpensesAt(expenses: seq<Expense>, user: Id, y: int, n: nat, i: int)
    requires ProjectionYear(y) && n <= 12 && 0 <= i < n
    ensures Expenses(expenses, user, y, n)[i] == MonthExpenses(expenses, user, y, i + 1)
  {
    var pre := Expenses(expenses, user, y, n - 1);
    assert Expenses(expenses, user, y, n) == pre + [MonthExpenses(expenses, user, y, n)];
    if i < n - 1 {
      ExpensesAt(expenses, user, y, n - 1, i);
      assert (pre + [MonthExpenses(expenses, user, y, n)])[i] == pre[i];
    }
  }

  /** Month `month` of the projection: its number, that month's income net
      and expenses, and savings equal to income minus expenses key by key. */
  ghost predicate MonthFigures(p: MonthProjection, companies: seq<Company>, entries: seq<WorkEntry>, expenses: seq<Expense>,
                         user: Id, y: int, month: int)
    requires ProjectionYear(y) && 1 <= month <= 12
  {
    p.month == month &&
    p.incomeNet == MonthIncome(companies, entries, user, y, month) &&
    p.expenses == MonthExpenses(expenses, user, y, month) &&
    forall k :: Get(p.savings, k) == Get(p.incomeNet, k) - Get(p.expenses, k)
  }

  /** The twelve projected months, each with its own month's figures. */
  lemma ProjectionMonthsShape(companies: seq<Company>, entries: seq<WorkEntry>, expenses: seq<Expense>, user: Id, y: int)
    requires ProjectionYear(y)
    ensures forall i :: 0 <= i < 12 ==>
      MonthFigures(ProjectionMonths(companies, entries, expenses, user, y, 12)[i], companies, entries, expenses, user, y, i + 1)
  {
    forall i | 0 <= i < 12
      ensures MonthFigures(ProjectionMonths(companies, entries, expenses, user, y, 12)[i], companies, entries, expenses, user, y, i + 1)
    {
      ProjectionMonthsAt(companies, entries, expenses, user, y, 12, i);
      IncomesAt(companies, entries, user, y, 12, i);
      ExpensesAt(expenses, user, y, 12, i);
    }
  }

  // ---------------------------------------------------------------------------
  // The ledger

  /** `UNIQUE(user_id, name)` on companies. */
  predicate UniqueCompanyNames(companies: seq<Company>) {
    forall i, j :: 0 <= i < j < |companies| ==>
      !(companies[i].userId == companies[j].userId && companies[i].name == companies[j].name)
  }

  predicate NameTaken(companies: seq<Company>, user: Id, name: string) {
    exists i :: 0 <= i < |companies| && companies[i].userId == user && companies[i].name == name
  }

  /** Every work entry names a company of its own user. */
  predicate EntriesHaveCompanies(companies: seq<Company>, entries: seq<WorkEntry>) {
    forall i :: 0 <= i < |entries| ==> HasCompany(companies, entries[i].userId, entries[i].companyId)
  }

  predicate HasCompany(companies: seq<Company>, user: Id, companyId: Id) {
    exists j :: 0 <= j < |companies| && companies[j].id == companyId && companies[j].userId == user
  }

  /** The schema's keys over the ledger's tables: one closure per (user,
      year, month), company ids and (user, name) unique, every company id
      below the fresh-id supply, and every work entry belonging to a company
      of its own user. */
  predicate Consistent(companies: seq<Company>, entries: seq<WorkEntry>, closures: seq<Closure>, nextId: nat) {
    UniqueClosureKeys(closures) &&
    UniqueCompanyIds(companies) &&
    UniqueCompanyNames(companies) &&
    (forall i :: 0 <= i < |companies| ==> companies[i].id < nextId) &&
    EntriesHaveCompanies(companies, entries)
  }

  lemma ConsistentMoreIds(companies: seq<Company>, entries: seq<WorkEntry>, closures: seq<Closure>, n: nat, n': nat)
    requires Consistent(companies, entries, closures, n) && n <= n'
    ensures Consistent(companies, entries, closures, n')
  {
  }

  /** Closing a month that is still open keeps the keys. */
  lemma ConsistentAddClosure(companies: seq<Company>, entries: seq<WorkEntry>, closures: seq<Closure>, n: nat, c: Closure)
    requires Consistent(companies, entries, closures, n) && !IsMonthClosed(closures, c.userId, c.year, c.month)
    ensures Consistent(companies, entries, closures + [c], n)
  {
    UniqueClosureKeysAppend(closures, c);
  }

  /** A work entry for one of its user's companies keeps the keys. */
  lemma ConsistentAddEntry(companies: seq<Company>, entries: seq<WorkEntry>, closures: seq<Closure>, n: nat, e: WorkEntry)
    requires Consistent(companies, entries, closures, n) && GetCompany(companies, e.userId, e.companyId).Ok?
    ensures Consistent(companies, entries + [e], closures, n)
  {
    forall i | 0 <= i < |entries + [e]|
      ensures HasCompany(companies, (entries + [e])[i].userId, (entries + [e])[i].companyId)
    {
      if i < |entries| {
        assert (entries + [e])[i] == entries[i];
      }
    }
  }

  /** A company with a fresh id and a name its user has not used keeps the
      keys, the id supply moving past it; no existing entry refers to it. */
  lemma ConsistentAddCompany(companies: seq<Company>, entries: seq<WorkEntry>, closures: seq<Closure>, n: nat, c: Company)
    requires Consistent(companies, entries, closures, n) && c.id == n && !NameTaken(companies, c.userId, c.name)
    ensures Consistent(companies + [c], entries, closures, n + 1)
    ensures forall i :: 0 <= i < |entries| ==> entries[i].companyId != c.id
  {
    var cs := companies + [c];
    forall i | 0 <= i < |entries|
      ensures HasCompany(cs, entries[i].userId, entries[i].companyId)
    {
      assert HasCompany(companies, entries[i].userId, entries[i].companyId);
      var j :| 0 <= j < |companies| && companies[j].id == entries[i].companyId && companies[j].userId == entries[i].userId;
      assert cs[j] == companies[j];
    }
    forall i | 0 <= i < |entries| ensures entries[i].companyId != c.id {
      assert HasCompany(companies, entries[i].userId, entries[i].companyId);
      var j :| 0 <= j < |companies| && companies[j].id == entries[i].companyId;
    }
  }

  /** The `expenses` row `api_create_expense` inserts. */
  function ExpenseRow(f: ExpenseFields, user: Id, id: Id): (x: Expense)
    ensures x.id == id && x.userId == user && x.date == f.date && x.amount == f.amount
    ensures x.currency == f.currency && x.affectsBank == f.affectsBank
  {
    Expense(id, user, f.date, f.category, f.concept, f.amount, f.currency, f.affectsBank)
  }

  /** The bank movements `api_create_expense` inserts: one of minus the
      amount, linked to the expense, only when it affects the bank. */
  function ExpensePosts(f: ExpenseFields, user: Id, id: Id): (ps: seq<BankMovement>)
    ensures |ps| == (if f.affectsBank then 1 else 0)
    ensures f.affectsBank ==> ps[0] == ExpenseMovement(f, user, id, id + 1)
  {
    if f.affectsBank then [ExpenseMovement(f, user, id, id + 1)] else []
  }

  /** The effect of one expense with id `id` on the expenses and the bank
      movements: its row is appended, and so are its postings, which lower
      the user's balance in its currency by its amount when it affects the
      bank. */
  ghost predicate ExpenseRecorded(x0: seq<Expense>, m0: seq<BankMovement>, x1: seq<Expense>, m1: seq<BankMovement>,
                                  f: ExpenseFields, user: Id, id: Id) {
    x1 == x0 + [ExpenseRow(f, user, id)] &&
    m1 == m0 + ExpensePosts(f, user, id) &&
    forall cur ::
      Get(BankBalance(m1, user), cur) ==
      Get(BankBalance(m0, user), cur) - (if f.affectsBank && cur == f.currency then f.amount else 0)
  }

  /** The `debt_payments` row `api_create_debt_payment` inserts. */
  function PaymentRow(user: Id, debtId: Id, day: Date, amount: int, id: Id): (p: DebtPayment)
    ensures p.id == id && p.userId == user && p.debtId == debtId && p.date == day && p.amount == amount
  {
    DebtPayment(id, user, debtId, day, amount)
  }

  /** The one bank movement `api_create_debt_payment` inserts. */
  function PaymentPosts(p: DebtPayment, currency: string, movementId: Id): (ps: seq<BankMovement>)
    ensures |ps| == 1 && ps[0] == PaymentMovement(p, currency, movementId)
  {
    [PaymentMovement(p, currency, movementId)]
  }

  /** The effect of one debt payment of `amount` with id `id` on the
      payments and the bank movements: the payment row and its movement
      dated `day` are appended, the debt's remainder drops by the amount, and
      the user's balance in the debt's currency drops by it too. */
  ghost predicate PaymentRecorded(debts: seq<Debt>, p0: seq<DebtPayment>, m0: seq<BankMovement>,
                                  p1: seq<DebtPayment>, m1: seq<BankMovement>,
                                  user: Id, debtId: Id, debt: Debt, day: Date, amount: int, id: Id) {
    var p := PaymentRow(user, debtId, day, amount, id);
    p1 == p0 + [p] &&
    m1 == m0 + PaymentPosts(p, debt.currency, id + 1) &&
    DebtRemaining(debts, p1, user, debtId).Ok? && DebtRemaining(debts, p0, user, debtId).Ok? &&
    DebtRemaining(debts, p1, user, debtId).value.1 == DebtRemaining(debts, p0, user, debtId).value.1 - amount &&
    forall cur ::
      Get(BankBalance(m1, user), cur) == Get(BankBalance(m0, user), cur) - (if cur == debt.currency then amount else 0)
  }

  class Ledger {
    var companies: seq<Company>
    var workEntries: seq<WorkEntry>
    var expenses: seq<Expense>
    var closures: seq<Closure>
    var movements: seq<BankMovement>
    var debts: seq<Debt>
    var payments: seq<DebtPayment>
    /** The next fresh id. */
    var nextId: nat

    ghost predicate Valid()
      reads this`companies, this`workEntries, this`closures, this`nextId
    {
      Consistent(companies, workEntries, closures, nextId)
    }

    constructor ()
      ensures Valid()
      ensures companies == [] && workEntries == [] && expenses == [] && closures == []
      ensures movements == [] && debts == [] && payments == [] && nextId == 0
    {
      companies, workEntries, expenses, closures := [], [], [], [];
      movements, debts, payments := [], [], [];
      nextId := 0;
    }

    /** `new_id()`. */
    method NewId() returns (id: Id)
      modifies this`nextId
      ensures id == old(nextId) && nextId == old(nextId) + 1
    {
      id := nextId;
      nextId := nextId + 1;
    }

    /** A fresh id, keeping the invariant. */
    method Reserve() returns (id: Id)
      requires Valid()
      modifies this`nextId
      ensures Valid()
      ensures id == old(nextId) && nextId == old(nextId) + 1
    {
      id := NewId();
      ConsistentMoreIds(companies, workEntries, closures, id, nextId);
    }

    /** Inserts a company under a fresh id and a name its user has not used. */
    method AddCompany(c: Company)
      requires Valid() && c.id == nextId && !NameTaken(companies, c.userId, c.name)
      modifies this`companies, this`nextId
      ensures Valid()
      ensures companies == old(companies) + [c] && nextId == old(nextId) + 1
      ensures ClosedMonthsFrozen(closures, old(companies), workEntries, expenses, companies, workEntries, expenses)
    {
      ConsistentAddCompany(companies, workEntries, closures, nextId, c);
      AppendCompanyKeepsClosedMonths(closures, companies, workEntries, expenses, c);
      var _ := NewId();
      companies := companies + [c];
    }

    /** Inserts a work entry for one of its user's companies. */
    method AddEntry(e: WorkEntry)
      requires Valid() && GetCompany(companies, e.userId, e.companyId).Ok?
      requires ValidDate(e.date) && !IsMonthClosed(closures, e.userId, e.date.year, e.date.month)
      modifies this`workEntries, this`nextId
      ensures Valid()
      ensures workEntries == old(workEntries) + [e] && nextId == old(nextId) + 1
      ensures ClosedMonthsFrozen(closures, companies, old(workEntries), expenses, companies, workEntries, expenses)
    {
      ConsistentAddEntry(companies, workEntries, closures, nextId, e);
      ConsistentMoreIds(companies, workEntries + [e], closures, nextId, nextId + 1);
      AppendEntryKeepsClosedMonths(closures, companies, workEntries, expenses, e);
      var _ := NewId();
      workEntries := workEntries + [e];
    }

    /** Inserts the closure of an open month under a fresh id. */
    method AddClosure(user: Id, y: int, m: int) returns (id: Id)
      requires Valid() && !IsMonthClosed(closures, user, y, m)
      modifies this`closures, this`nextId
      ensures Valid()
      ensures id == old(nextId) && nextId == old(nextId) + 1
      ensures closures == old(closures) + [Closure(id, user, y, m)] && IsMonthClosed(closures, user, y, m)
    {
      var c := Closure(nextId, user, y, m);
      ConsistentAddClosure(companies, workEntries, closures, nextId, c);
      ConsistentMoreIds(companies, workEntries, closures + [c], nextId, nextId + 1);
      ClosureFrame(closures, c, user, y, m);
      id := NewId();
      closures := closures + [c];
    }

    // -------------------------------------------------------------------------
    // Reports

    /** `month_income_breakdown(user, y, m)`. */
    method MonthIncomeBreakdown(user: Id, y: int, m: int) returns (r: Result<map<Id, IncomeItem>>)
      ensures !ValidPeriod(y, m) ==> r == Err(InvalidMonth)
      ensures ValidPeriod(y, m) ==> r == Ok(Breakdown(companies, workEntries, user, MonthRange(y, m).value))
    {
      var range := MonthRange(y, m);
      if range.None? {
        return Err(InvalidMonth);
      }
      var rows := IncomeRows(companies, workEntries, user, range.value);
      var out: map<Id, IncomeItem> := map[];
      for i := 0 to |rows|
        invariant out == RowsToMap(rows[..i])
      {
        var row := rows[i];
        var gross := row.gross;
        var irpf := Irpf(gross, row.company.irpfPercent);
        var estimated := gross - irpf - row.company.otherDeductions;
        var item := IncomeItem(row.company.name, row.company.currency, gross, irpf,
                               row.company.otherDeductions, estimated, row.advances, estimated - row.advances);
        assert item == ItemOf(row);
        assert rows[..i + 1][..i] == rows[..i] && rows[..i + 1][i] == row;
        out := out[row.company.id := item];
      }
      assert rows[..|rows|] == rows;
      return Ok(out);
    }

    /** `month_income_net_by_currency(user, y, m)`: the breakdown's values are
        the rows in order, one per company. */
    method MonthIncomeNetByCurrency(user: Id, y: int, m: int) returns (r: Result<map<string, int>>)
      ensures !ValidPeriod(y, m) ==> r == Err(InvalidMonth)
      ensures ValidPeriod(y, m) ==> r == Ok(IncomeNetByCurrency(companies, workEntries, user, MonthRange(y, m).value))
    {
      var range := MonthRange(y, m);
      if range.None? {
        return Err(InvalidMonth);
      }
      var rows := IncomeRows(companies, workEntries, user, range.value);
      var totals := Accumulate(NetRows(rows));
      return Ok(totals);
    }

    // -------------------------------------------------------------------------
    // Closing a month

    /** `close_month(user, y, m)`. A second closure fails and changes nothing.
        Otherwise the closure row is inserted first; an invalid period then
        fails with that row in place, and a valid one posts the closing
        movements after it. */
    method CloseMonth(user: Id, y: int, m: int) returns (r: Result<Id>)
      requires Valid()
      modifies this`closures, this`movements, this`nextId
      ensures Valid()
      ensures old(IsMonthClosed(closures, user, y, m)) ==>
        r == Err(AlreadyClosed) && closures == old(closures) && movements == old(movements) && nextId == old(nextId)
      ensures !old(IsMonthClosed(closures, user, y, m)) ==>
        closures == old(closures) + [Closure(old(nextId), user, y, m)] && IsMonthClosed(closures, user, y, m)
      ensures !old(IsMonthClosed(closures, user, y, m)) && !ValidPeriod(y, m) ==>
        r == Err(InvalidMonth) && movements == old(movements) && nextId == old(nextId) + 1
      ensures !old(IsMonthClosed(closures, user, y, m)) && ValidPeriod(y, m) ==>
        var posted := MonthClosurePostings(companies, workEntries, expenses, user, y, m, old(nextId), old(nextId) + 1);
        r == Ok(old(nextId)) &&
        movements == old(movements) + posted &&
        nextId == old(nextId) + 1 + |posted|
    {
      if IsMonthClosed(closures, user, y, m) {
        return Err(AlreadyClosed);
      }
      var closureId := AddClosure(user, y, m);

      if !ValidPeriod(y, m) {
        // `month_range` raises after the closure row is in place
        return Err(InvalidMonth);
      }
      PostClosure(user, y, m, closureId);
      return Ok(closureId);
    }

    /** Inserts an expense dated in an open month. */
    method AddExpense(x: Expense)
      requires Valid()
      requires ValidDate(x.date) && !IsMonthClosed(closures, x.userId, x.date.year, x.date.month)
      modifies this`expenses
      ensures Valid()
      ensures expenses == old(expenses) + [x]
      ensures ClosedMonthsFrozen(closures, companies, workEntries, old(expenses), companies, workEntries, expenses)
    {
      AppendExpenseKeepsClosedMonths(closures, companies, workEntries, expenses, x);
      expenses := expenses + [x];
    }

    /** Inserts a bank movement: its user's balance in its currency moves by
        its amount, and no other balance moves. */
    method Post(mv: BankMovement)
      requires Valid()
      modifies this`movements
      ensures Valid()
      ensures movements == old(movements) + [mv]
      ensures forall user, cur ::
        Get(BankBalance(movements, user), cur) ==
        Get(BankBalance(old(movements), user), cur) + (if mv.userId == user && mv.currency == cur then mv.amount else 0)
    {
      forall user, cur
        ensures Get(BankBalance(movements + [mv], user), cur) ==
          Get(BankBalance(movements, user), cur) + (if mv.userId == user && mv.currency == cur then mv.amount else 0)
      {
        BankBalanceAppendOne(movements, mv, user, cur);
      }
      movements := movements + [mv];
    }

    /** The second half of `close_month` for a valid period: the month's
        amounts per currency, then one movement per supported currency whose
        amount is not zero. */
    method PostClosure(user: Id, y: int, m: int, closureId: Id)
      requires Valid() && ValidPeriod(y, m)
      modifies this`movements, this`nextId
      ensures Valid()
      ensures var posted := MonthClosurePostings(companies, workEntries, expenses, user, y, m, closureId, old(nextId));
        movements == old(movements) + posted && nextId == old(nextId) + |posted|
    {
      var income := MonthIncomeNetByCurrency(user, y, m);
      var range := MonthRange(y, m).value;
      var notInBank := ExpensesNotInBankByCurrency(expenses, user, range);
      var amounts := MergeInto(map[], income.value, false);
      amounts := MergeInto(amounts, notInBank, true);
      CombineEmpty(income.value);
      assert amounts == ClosingAmounts(companies, workEntries, expenses, user, y, m);
      PostAmounts(amounts, user, closureId, ClosingDay(y, m), ClosureNote(y, m));
    }

    /** The posting loop of `close_month`. */
    method PostAmounts(amounts: map<string, int>, user: Id, closureId: Id, day: Date, note: string)
      requires Valid()
      modifies this`movements, this`nextId
      ensures Valid()
      ensures var posted := ClosurePostings(SupportedList, amounts, user, closureId, day, note, old(nextId));
        movements == old(movements) + posted && nextId == old(nextId) + |posted|
    {
      var i := 0;
      while i < |SupportedList|
        invariant 0 <= i <= |SupportedList|
        invariant movements == old(movements) + ClosurePostings(SupportedList[..i], amounts, user, closureId, day, note, old(nextId))
        invariant nextId == old(nextId) + |ClosurePostings(SupportedList[..i], amounts, user, closureId, day, note, old(nextId))|
        invariant Valid()
      {
        ClosurePostingsSnoc(SupportedList[..i], SupportedList[i], amounts, user, closureId, day, note, old(nextId));
        ClosureTailShape(SupportedList[i], amounts, user, closureId, day, note, nextId);
        assert SupportedList[..i + 1] == SupportedList[..i] + [SupportedList[i]];
        PostCurrency(SupportedList[i], amounts, user, closureId, day, note);
        i := i + 1;
      }
      assert SupportedList[..i] == SupportedList;
    }

    /** One turn of the posting loop: a movement for `cur` when its amount
        is not zero. */
    method PostCurrency(cur: string, amounts: map<string, int>, user: Id, closureId: Id, day: Date, note: string)
      requires Valid()
      modifies this`movements, this`nextId
      ensures Valid()
      ensures Get(amounts, cur) == 0 ==> movements == old(movements) && nextId == old(nextId)
      ensures Get(amounts, cur) != 0 ==>
        movements == old(movements) + [ClosurePosting(cur, amounts, user, closureId, day, note, old(nextId))] &&
        nextId == old(nextId) + 1
    {
      if Get(amounts, cur) != 0 {
        var id := Reserve();
        movements := movements + [ClosurePosting(cur, amounts, user, closureId, day, note, id)];
      }
    }

    /** `api_close_month`: the period check, then `close_month`. */
    method CloseMonthRequest(user: Id, y: int, m: int) returns (r: Result<Id>)
      requires Valid()
      modifies this`closures, this`movements, this`nextId
      ensures Valid()
      ensures CheckClosePeriod(y, m).Fail? ==>
        r == Err(InvalidMonth) && closures == old(closures) && movements == old(movements) && nextId == old(nextId)
      ensures CheckClosePeriod(y, m).Pass? && old(IsMonthClosed(closures, user, y, m)) ==>
        r == Err(AlreadyClosed) && closures == old(closures) && movements == old(movements) && nextId == old(nextId)
      ensures CheckClosePeriod(y, m).Pass? && !old(IsMonthClosed(closures, user, y, m)) ==>
        var posted := MonthClosurePostings(companies, workEntries, expenses, user, y, m, old(nextId), old(nextId) + 1);
        r == Ok(old(nextId)) &&
        closures == old(closures) + [Closure(old(nextId), user, y, m)] &&
        movements == old(movements) + posted &&
        nextId == old(nextId) + 1 + |posted|
    {
      if CheckClosePeriod(y, m).Fail? {
        return Err(InvalidMonth);
      }
      r := CloseMonth(user, y, m);
    }

    // -------------------------------------------------------------------------
    // Creating rows

    /** `api_create_company`; a duplicate (user, name) is refused as the
        UNIQUE constraint refuses it. */
    method CreateCompany(user: Id, req: CompanyRequest) returns (r: Result<Id>)
      requires Valid()
      modifies this`companies, this`nextId
      ensures Valid()
      ensures ValidateCompany(req).Err? ==> r == Err(ValidateCompany(req).error)
      ensures ValidateCompany(req).Ok? ==>
        (r.Ok? <==> !NameTaken(old(companies), user, ValidateCompany(req).value.name))
      ensures ValidateCompany(req).Ok? && NameTaken(old(companies), user, ValidateCompany(req).value.name) ==>
        r == Err(DuplicateCompanyName)
      ensures r.Err? ==> companies == old(companies) && nextId == old(nextId)
      ensures r.Ok? ==>
        var f := ValidateCompany(req).value;
        r.value == old(nextId) && nextId == old(nextId) + 1 &&
        companies == old(companies) + [Company(old(nextId), user, f.name, f.currency, f.dayRate, f.nightRate,
                                               f.irpfPercent, f.otherDeductions, f.proratedPay)]
      ensures ClosedMonthsFrozen(closures, old(companies), workEntries, expenses, companies, workEntries, expenses)
    {
      var v := ValidateCompany(req);
      if v.Err? {
        return Err(v.error);
      }
      var f := v.value;
      if NameTaken(companies, user, f.name) {
        return Err(DuplicateCompanyName);
      }
      var id := nextId;
      AddCompany(Company(id, user, f.name, f.currency, f.dayRate, f.nightRate, f.irpfPercent, f.otherDeductions, f.proratedPay));
      return Ok(id);
    }

    /** `api_create_expense`: checks first, then the expense row and, when it
        affects the bank, one movement of minus its amount linked to it. */
    method CreateExpense(user: Id, req: ExpenseRequest) returns (r: Result<Id>)
      requires Valid()
      modifies this`expenses, this`movements, this`nextId
      ensures Valid()
      ensures ValidateExpense(closures, user, req).Err? ==>
        r == Err(ValidateExpense(closures, user, req).error) &&
        expenses == old(expenses) && movements == old(movements) && nextId == old(nextId)
      ensures ValidateExpense(closures, user, req).Ok? ==>
        r == Ok(old(nextId)) &&
        nextId == old(nextId) + 1 + |ExpensePosts(ValidateExpense(closures, user, req).value, user, old(nextId))| &&
        ExpenseRecorded(old(expenses), old(movements), expenses, movements, ValidateExpense(closures, user, req).value, user, old(nextId))
      ensures ClosedMonthsFrozen(closures, companies, workEntries, old(expenses), companies, workEntries, expenses)
    {
      var v := ValidateExpense(closures, user, req);
      if v.Err? {
        return Err(v.error);
      }
      ExpenseAccepted(closures, user, req);
      var id := InsertExpense(user, v.value);
      return Ok(id);
    }

    /** The inserts of `api_create_expense` once its checks have passed. */
    method InsertExpense(user: Id, f: ExpenseFields) returns (id: Id)
      requires Valid() && ValidDate(f.date) && !IsMonthClosed(closures, user, f.date.year, f.date.month)
      modifies this`expenses, this`movements, this`nextId
      ensures Valid()
      ensures id == old(nextId)
      ensures nextId == old(nextId) + 1 + |ExpensePosts(f, user, id)|
      ensures ExpenseRecorded(old(expenses), old(movements), expenses, movements, f, user, id)
      ensures ClosedMonthsFrozen(closures, companies, workEntries, old(expenses), companies, workEntries, expenses)
    {
      id := Reserve();
      AddExpense(ExpenseRow(f, user, id));
      if f.affectsBank {
        var movementId := Reserve();
        Post(ExpenseMovement(f, user, id, movementId));
      }
    }

    /** `api_create_work_entry`: checks first, then the entry row with its
        computed gross. */
    method CreateWorkEntry(user: Id, req: WorkEntryRequest) returns (r: Result<Id>)
      requires Valid()
      modifies this`workEntries, this`nextId
      ensures Valid()
      ensures ValidateWorkEntry(companies, closures, user, req, old(nextId)).Err? ==>
        r == Err(ValidateWorkEntry(companies, closures, user, req, old(nextId)).error) &&
        workEntries == old(workEntries) && nextId == old(nextId)
      ensures ValidateWorkEntry(companies, closures, user, req, old(nextId)).Ok? ==>
        r == Ok(old(nextId)) && nextId == old(nextId) + 1 &&
        workEntries == old(workEntries) + [ValidateWorkEntry(companies, closures, user, req, old(nextId)).value]
      ensures ClosedMonthsFrozen(closures, companies, old(workEntries), expenses, companies, workEntries, expenses)
    {
      var v := ValidateWorkEntry(companies, closures, user, req, nextId);
      if v.Err? {
        return Err(v.error);
      }
      WorkEntryAccepted(companies, closures, user, req, nextId);
      var id := nextId;
      AddEntry(v.value);
      return Ok(id);
    }

    /** `api_create_debt`. */
    method CreateDebt(user: Id, req: DebtRequest) returns (r: Result<Id>)
      requires Valid()
      modifies this`debts, this`nextId
      ensures Valid()
      ensures ValidateDebt(req, user, old(nextId)).Err? ==>
        r == Err(ValidateDebt(req, user, old(nextId)).error) && debts == old(debts) && nextId == old(nextId)
      ensures ValidateDebt(req, user, old(nextId)).Ok? ==>
        r == Ok(old(nextId)) && nextId == old(nextId) + 1 &&
        debts == old(debts) + [ValidateDebt(req, user, old(nextId)).value]
    {
      var v := ValidateDebt(req, user, nextId);
      if v.Err? {
        return Err(v.error);
      }
      InsertDebt(v.value);
      return Ok(v.value.id);
    }

    /** The `new_id` and the insert of `api_create_debt`. */
    method InsertDebt(d: Debt)
      requires Valid() && d.id == nextId
      modifies this`debts, this`nextId
      ensures Valid() && debts == old(debts) + [d] && nextId == old(nextId) + 1
    {
      var id := Reserve();
      debts := debts + [d];
    }

    /** `api_create_debt_payment`: checks first, then the payment row and one
        movement of minus its amount in the debt's currency; the debt's
        remainder drops by the amount. */
    method CreateDebtPayment(user: Id, debtId: Id, req: PaymentRequest) returns (r: Result<Id>)
      requires Valid()
      modifies this`payments, this`movements, this`nextId
      ensures Valid()
      ensures ValidatePayment(debts, closures, user, debtId, req).Err? ==>
        r == Err(ValidatePayment(debts, closures, user, debtId, req).error) &&
        payments == old(payments) && movements == old(movements) && nextId == old(nextId)
      ensures ValidatePayment(debts, closures, user, debtId, req).Ok? ==>
        r == Ok(old(nextId)) && nextId == old(nextId) + 2 &&
        PaymentRecorded(debts, old(payments), old(movements), payments, movements, user, debtId,
                        ValidatePayment(debts, closures, user, debtId, req).value.0, req.date.value,
                        ValidatePayment(debts, closures, user, debtId, req).value.1, old(nextId))
    {
      var v := ValidatePayment(debts, closures, user, debtId, req);
      if v.Err? {
        return Err(v.error);
      }
      var id := InsertPayment(user, debtId, v.value.0, req.date.value, v.value.1);
      return Ok(id);
    }

    /** The inserts of `api_create_debt_payment` once its checks have passed. */
    method InsertPayment(user: Id, debtId: Id, debt: Debt, day: Date, amount: int) returns (id: Id)
      requires Valid() && DebtRemaining(debts, payments, user, debtId).Ok?
      modifies this`payments, this`movements, this`nextId
      ensures Valid()
      ensures id == old(nextId) && nextId == old(nextId) + 2
      ensures PaymentRecorded(debts, old(payments), old(movements), payments, movements, user, debtId, debt, day, amount, id)
    {
      id := Reserve();
      var p := PaymentRow(user, debtId, day, amount, id);
      DebtPaymentEffect(debts, payments, p, user, debtId);
      payments := payments + [p];
      var movementId := Reserve();
      Post(PaymentMovement(p, debt.currency, movementId));
      assert [PaymentMovement(p, debt.currency, movementId)] == PaymentPosts(p, debt.currency, movementId);
    }

    // -------------------------------------------------------------------------
    // The annual projection

    /** `api_premium_annual_projection(year)` for a caller already past the
        premium gate. */
    method AnnualProjection(user: Id, y: int) returns (r: Result<Projection>)
      ensures CheckProjectionYear(y).Fail? ==> r == Err(InvalidYear)
      ensures CheckProjectionYear(y).Pass? ==> r == Ok(AnnualFigures(companies, workEntries, expenses, user, y))
    {
      if CheckProjectionYear(y).Fail? {
        return Err(InvalidYear);
      }
      var months: seq<MonthProjection> := [];
      var totalIncome: map<string, int> := map[];
      var totalExpenses: map<string, int> := map[];
      for month := 1 to 13
        invariant months == ProjectionMonths(companies, workEntries, expenses, user, y, month - 1)
        invariant totalIncome == TotalOver(Incomes(companies, workEntries, user, y, month - 1))
        invariant totalExpenses == TotalOver(Expenses(expenses, user, y, month - 1))
      {
        var income := MonthIncomeNetByCurrency(user, y, month);
        var exp := ExpensesByCurrency(expenses, user, MonthRange(y, month).value);
        ghost var prevIncomes := Incomes(companies, workEntries, user, y, month - 1);
        ghost var prevExpenses := Expenses(expenses, user, y, month - 1);
        assert (prevIncomes + [income.value])[..month - 1] == prevIncomes;
        assert (prevExpenses + [exp])[..month - 1] == prevExpenses;
        totalIncome := MergeInto(totalIncome, income.value, false);
        totalExpenses := MergeInto(totalExpenses, exp, false);
        var savings := Combine(income.value, exp, true);
        months := months + [MonthProjection(month, income.value, exp, savings)];
      }
      var totalSavings := Combine(totalIncome, totalExpenses, true);
      return Ok(Projection(months, totalIncome, totalExpenses, totalSavings));
    }
  }
}
