/** The rows of the ledger's tables (app/db.py schema), as values. Every id
    is drawn from one fresh-id supply; dates are calendar dates, stored by
    the source as ISO strings whose order is the date order. */
module Tables {
  import opened Common
  import opened Calendar

  /** Row ids and user ids. */
  type Id = nat

  /** The range of SQLite's INTEGER columns, which hold signed 64-bit values. */
  const Int64Min: int := -0x8000_0000_0000_0000
  const Int64Max: int := 0x7FFF_FFFF_FFFF_FFFF

  predicate FitsInt64(x: int) {
    Int64Min <= x <= Int64Max
  }

  /** A `companies` row: hourly day and night rates in cents, the IRPF
      withholding percentage and a fixed monthly deduction. */
  datatype Company = Company(
    id: Id,
    userId: Id,
    name: string,
    currency: string,
    dayRate: int,
    nightRate: int,
    irpfPercent: real,
    otherDeductions: int,
    proratedPay: bool)

  /** A `work_entries` row: one worked day and its stored gross
      (`bruto_dia_cents`). */
  datatype WorkEntry = WorkEntry(
    id: Id,
    userId: Id,
    companyId: Id,
    date: Date,
    clockIn: Option<string>,
    clockOut: Option<string>,
    breakMinutes: int,
    dayHours: real,
    nightHours: real,
    bonus: int,
    pluses: int,
    advances: int,
    grossDay: int)

  /** An `expenses` row; `affectsBank` is `afecta_banco`. */
  datatype Expense = Expense(
    id: Id,
    userId: Id,
    date: Date,
    category: string,
    concept: string,
    amount: int,
    currency: string,
    affectsBank: bool)

  /** A `month_closures` row. */
  datatype Closure = Closure(id: Id, userId: Id, year: int, month: int)

  /** The `type` column of the bank movements each path posts. */
  const KindExpense: string := "gasto"
  const KindDebtPayment: string := "pagoDeuda"
  const KindMonthClosure: string := "ingresoMesCerrado"

  /** The one foreign key a bank movement carries: `related_expense_id`,
      `related_debt_payment_id` or `month_closure_id`. */
  datatype Link = ExpenseLink(expenseId: Id) | DebtPaymentLink(paymentId: Id) | ClosureLink(closureId: Id)

  /** A `bank_movements` row; `amount` is signed cents. */
  datatype BankMovement = BankMovement(
    id: Id,
    userId: Id,
    date: Date,
    kind: string,
    amount: int,
    currency: string,
    note: string,
    link: Link)

  /** A `debts` row. */
  datatype Debt = Debt(id: Id, userId: Id, creditor: string, total: int, currency: string)

  /** A `debt_payments` row. */
  datatype DebtPayment = DebtPayment(id: Id, userId: Id, debtId: Id, date: Date, amount: int)
}
