/** The validation chains at the top of the creating handlers of app/main.py:
    each takes the request fields as the handler reads them from the JSON
    body and either yields the values it would insert or the first error
    the handler raises, in the handler's order. */
module Handlers {
  import opened Common
  import opened Text
  import opened Money
  import opened Calendar
  import opened Tables
  import opened Queries

  /** `str(body.get("currency", "EUR")).strip().upper()`. */
  function NormalizeCurrency(currency: Option<string>): (c: string)
    ensures currency.None? ==> c == AsciiUpper(Strip("EUR"))
    ensures currency.Some? ==> c == AsciiUpper(Strip(currency.value))
  {
    AsciiUpper(Strip(if currency.Some? then currency.value else "EUR"))
  }

  /** A missing currency defaults to EUR. */
  lemma DefaultCurrencyIsEur()
    ensures NormalizeCurrency(None) == "EUR"
  {
    CanonicalCurrency("EUR");
  }

  /** A canonical code (no surrounding blanks, no lower case) is kept as is. */
  lemma CanonicalCurrency(c: string)
    requires c == [] || (!IsSpace(c[0]) && !IsSpace(c[|c| - 1]))
    requires forall i :: 0 <= i < |c| ==> !('a' <= c[i] <= 'z')
    ensures NormalizeCurrency(Some(c)) == c && AsciiUpper(Strip(c)) == c
  {
    StripUnchanged(c);
    UpperUnchanged(c);
  }

  /** The optional amounts (`otrosDescuentos`, `bonus`, `pluses`,
      `anticipos`): 0 when the text is blank, otherwise parsed. */
  function OptionalAmount(text: string, currency: string): (r: Result<int>)
    ensures Strip(text) == [] ==> r == Ok(0)
    ensures Strip(text) != [] ==> r == ParseMoneyToCents(text, currency)
    ensures r.Ok? ==> r.value >= 0
  {
    if Strip(text) == [] then Ok(0) else ParseMoneyToCents(text, currency)
  }

  /** `str(...).strip() or None`. */
  function ClockField(text: string): (t: Option<string>)
    ensures t.None? <==> Strip(text) == []
    ensures t.Some? ==> t.value == Strip(text)
  {
    if Strip(text) == [] then None else Some(Strip(text))
  }

  /** A date field as `parse_date_or_raise` leaves it: `None` when the text
      is not a date. */
  predicate DateOk(d: Option<Date>) {
    d.Some? && ValidDate(d.value)
  }

  // ---------------------------------------------------------------------------
  // Companies

  datatype CompanyRequest = CompanyRequest(
    name: string,
    currency: Option<string>,
    dayRate: string,
    nightRate: string,
    irpfPercent: real,
    otherDeductions: string,
    proratedPay: bool)

  datatype CompanyFields = CompanyFields(
    name: string,
    currency: string,
    dayRate: int,
    nightRate: int,
    irpfPercent: real,
    otherDeductions: int,
    proratedPay: bool)

  /** The money columns of a `companies` row fit SQLite's INTEGER range. */
  predicate CompanyColumnsFit(dayRate: int, nightRate: int, otherDeductions: int) {
    FitsInt64(dayRate) && FitsInt64(nightRate) && FitsInt64(otherDeductions)
  }

  /** The name and the currency of a company request pass. */
  predicate CompanyHeaderOk(req: CompanyRequest) {
    Strip(req.name) != [] && NormalizeCurrency(req.currency) in SupportedCurrencies
  }

  /** The checks of `api_create_company`, in order: name, currency, the two
      rates, IRPF, the other deductions, then the INSERT binding the values. */
  function ValidateCompany(req: CompanyRequest): (r: Result<CompanyFields>)
    ensures Strip(req.name) == [] ==> r == Err(NameRequired)
    ensures Strip(req.name) != [] && NormalizeCurrency(req.currency) !in SupportedCurrencies ==> r == Err(InvalidCurrency)
    ensures CompanyHeaderOk(req) ==>
      var cur := NormalizeCurrency(req.currency);
      var day := ParseMoneyToCents(req.dayRate, cur);
      var night := ParseMoneyToCents(req.nightRate, cur);
      var other := OptionalAmount(req.otherDeductions, cur);
      var irpfOk := 0.0 <= req.irpfPercent <= 100.0;
      (day.Err? ==> r == Err(day.error)) &&
      (day.Ok? && night.Err? ==> r == Err(night.error)) &&
      (day.Ok? && night.Ok? && !irpfOk ==> r == Err(InvalidIrpf)) &&
      (day.Ok? && night.Ok? && irpfOk && other.Err? ==> r == Err(other.error)) &&
      (day.Ok? && night.Ok? && irpfOk && other.Ok? ==>
        (r.Ok? <==> CompanyColumnsFit(day.value, night.value, other.value)) &&
        (r.Err? ==> r.error == IntegerOverflow))
    ensures r.Ok? ==>
      CompanyHeaderOk(req) &&
      r.value.name == Strip(req.name) && r.value.name != [] &&
      r.value.currency == NormalizeCurrency(req.currency) && r.value.currency in SupportedCurrencies &&
      ParseMoneyToCents(req.dayRate, r.value.currency) == Ok(r.value.dayRate) &&
      ParseMoneyToCents(req.nightRate, r.value.currency) == Ok(r.value.nightRate) &&
      0.0 <= r.value.irpfPercent <= 100.0 && r.value.irpfPercent == req.irpfPercent &&
      OptionalAmount(req.otherDeductions, r.value.currency) == Ok(r.value.otherDeductions) &&
      CompanyColumnsFit(r.value.dayRate, r.value.nightRate, r.value.otherDeductions) &&
      r.value.proratedPay == req.proratedPay
  {
    var name := Strip(req.name);
    var currency := NormalizeCurrency(req.currency);
    if name == [] then Err(NameRequired)
    else if currency !in SupportedCurrencies then Err(InvalidCurrency)
    else match ParseMoneyToCents(req.dayRate, currency)
      case Err(e) => Err(e)
      case Ok(day) =>
        match ParseMoneyToCents(req.nightRate, currency)
        case Err(e) => Err(e)
        case Ok(night) =>
          if req.irpfPercent < 0.0 || req.irpfPercent > 100.0 then Err(InvalidIrpf)
          else match OptionalAmount(req.otherDeductions, currency)
            case Err(e) => Err(e)
            case Ok(other) =>
              if !CompanyColumnsFit(day, night, other) then Err(IntegerOverflow)
              else Ok(CompanyFields(name, currency, day, night, req.irpfPercent, other, req.proratedPay))
  }

  // ---------------------------------------------------------------------------
  // Expenses

  datatype ExpenseRequest = ExpenseRequest(
    date: Option<Date>,
    category: string,
    concept: string,
    currency: Option<string>,
    amount: string,
    affectsBank: Option<bool>)

  datatype ExpenseFields = ExpenseFields(
    date: Date,
    category: string,
    concept: string,
    currency: string,
    amount: int,
    affectsBank: bool)

  /** The checks of `api_create_expense` before the amount pass: a valid
      date in an open month, and a category and a concept. */
  predicate ExpenseHeaderOk(closures: seq<Closure>, user: Id, req: ExpenseRequest) {
    DateOk(req.date) && !IsMonthClosed(closures, user, req.date.value.year, req.date.value.month) &&
    Strip(req.category) != [] && Strip(req.concept) != []
  }

  /** The checks of `api_create_expense`, in order: the date, the month
      being open, category, concept, the amount in the currency, then the
      INSERT binding the amount. */
  function ValidateExpense(closures: seq<Closure>, user: Id, req: ExpenseRequest): (r: Result<ExpenseFields>)
    ensures !DateOk(req.date) ==> r == Err(InvalidDate)
    ensures (DateOk(req.date) && IsMonthClosed(closures, user, req.date.value.year, req.date.value.month)) ==>
      r == Err(MonthClosed)
    ensures (DateOk(req.date) && !IsMonthClosed(closures, user, req.date.value.year, req.date.value.month)) ==>
      (Strip(req.category) == [] ==> r == Err(CategoryRequired)) &&
      (Strip(req.category) != [] && Strip(req.concept) == [] ==> r == Err(ConceptRequired))
    ensures ExpenseHeaderOk(closures, user, req) ==>
      var amount := ParseMoneyToCents(req.amount, NormalizeCurrency(req.currency));
      (amount.Err? ==> r == Err(amount.error)) &&
      (amount.Ok? ==> (r.Ok? <==> FitsInt64(amount.value)) && (r.Err? ==> r.error == IntegerOverflow))
    ensures r.Ok? ==>
      ExpenseHeaderOk(closures, user, req) &&
      Some(r.value.date) == req.date && r.value.category == Strip(req.category) &&
      r.value.concept == Strip(req.concept) && r.value.currency == NormalizeCurrency(req.currency) &&
      r.value.currency in SupportedCurrencies &&
      ParseMoneyToCents(req.amount, r.value.currency) == Ok(r.value.amount) &&
      FitsInt64(r.value.amount) && FitsInt64(-r.value.amount) &&
      r.value.affectsBank == (req.affectsBank.None? || req.affectsBank.value)
  {
    if !DateOk(req.date) then Err(InvalidDate)
    else
      var d := req.date.value;
      match EnsureMonthOpen(closures, user, d)
      case Fail(e) => Err(e)
      case Pass =>
        var category := Strip(req.category);
        var concept := Strip(req.concept);
        if category == [] then Err(CategoryRequired)
        else if concept == [] then Err(ConceptRequired)
        else
          var currency := NormalizeCurrency(req.currency);
          match ParseMoneyToCents(req.amount, currency)
          case Err(e) => Err(e)
          case Ok(amount) =>
            if !FitsInt64(amount) then Err(IntegerOverflow)
            else Ok(ExpenseFields(d, category, concept, currency, amount, req.affectsBank.None? || req.affectsBank.value))
  }

  /** `f"{category}: {concept}"`. */
  function ExpenseNote(category: string, concept: string): (note: string)
    ensures |note| == |category| + 2 + |concept|
    ensures note[..|category|] == category && note[|category|..|category| + 2] == ": " &&
            note[|category| + 2..] == concept
  {
    category + ": " + concept
  }

  /** What the expense inserts rely on from a passing validation. */
  lemma ExpenseAccepted(closures: seq<Closure>, user: Id, req: ExpenseRequest)
    requires ValidateExpense(closures, user, req).Ok?
    ensures var f := ValidateExpense(closures, user, req).value;
      ValidDate(f.date) && !IsMonthClosed(closures, user, f.date.year, f.date.month)
  {
  }

  /** The movement an expense that affects the bank posts. */
  function ExpenseMovement(f: ExpenseFields, user: Id, expenseId: Id, movementId: Id): (mv: BankMovement)
    ensures mv.userId == user && mv.date == f.date && mv.kind == KindExpense
    ensures mv.amount == -f.amount && mv.currency == f.currency
    ensures mv.link == ExpenseLink(expenseId)
  {
    BankMovement(movementId, user, f.date, KindExpense, -f.amount, f.currency, ExpenseNote(f.category, f.concept), ExpenseLink(expenseId))
  }

  // ---------------------------------------------------------------------------
  // Work entries

  datatype WorkEntryRequest = WorkEntryRequest(
    companyId: Id,
    date: Option<Date>,
    clockIn: string,
    clockOut: string,
    breakMinutes: int,
    dayHours: real,
    nightHours: real,
    bonus: string,
    pluses: string,
    advances: string)

  /** `hora_entrada and hora_salida and hora_entrada >= hora_salida`: only
      two given times can be out of order, and equal times are. */
  function ClockOrderWrong(clockIn: Option<string>, clockOut: Option<string>): (wrong: bool)
    ensures wrong ==> clockIn.Some? && clockOut.Some?
    ensures clockIn.Some? && clockOut.Some? && clockIn.value == clockOut.value ==> wrong
    ensures clockIn.Some? && clockOut.Some? && LexLess(clockIn.value, clockOut.value) ==> !wrong
  {
    if clockIn.Some? && clockOut.Some? then
      LexLessIrreflexive(clockIn.value);
      !LexLess(clockIn.value, clockOut.value)
    else false
  }

  /** The checks of `api_create_work_entry` before the numbers pass: the
      company is the caller's, the date is valid, its month is open and the
      clock times are in order. */
  predicate EntryHeaderOk(companies: seq<Company>, closures: seq<Closure>, user: Id, req: WorkEntryRequest) {
    GetCompany(companies, user, req.companyId).Ok? && DateOk(req.date) &&
    !IsMonthClosed(closures, user, req.date.value.year, req.date.value.month) &&
    !ClockOrderWrong(ClockField(req.clockIn), ClockField(req.clockOut))
  }

  /** The break and the hours are not negative. */
  predicate EntryNumbersOk(req: WorkEntryRequest) {
    req.breakMinutes >= 0 && req.dayHours >= 0.0 && req.nightHours >= 0.0
  }

  /** The integer columns of a `work_entries` row fit SQLite's INTEGER range. */
  predicate EntryColumnsFit(breakMinutes: int, bonus: int, pluses: int, advances: int, gross: int) {
    FitsInt64(breakMinutes) && FitsInt64(bonus) && FitsInt64(pluses) && FitsInt64(advances) && FitsInt64(gross)
  }

  /** The checks of `api_create_work_entry`, in order, and the row it
      inserts; the stored gross uses the company's own rates. */
  function ValidateWorkEntry(companies: seq<Company>, closures: seq<Closure>, user: Id, req: WorkEntryRequest, id: Id): (r: Result<WorkEntry>)
    ensures GetCompany(companies, user, req.companyId).Err? ==> r == Err(CompanyNotFound)
    ensures GetCompany(companies, user, req.companyId).Ok? && !DateOk(req.date) ==> r == Err(InvalidDate)
    ensures (GetCompany(companies, user, req.companyId).Ok? && DateOk(req.date) &&
             IsMonthClosed(closures, user, req.date.value.year, req.date.value.month)) ==> r == Err(MonthClosed)
    ensures (GetCompany(companies, user, req.companyId).Ok? && DateOk(req.date) &&
             !IsMonthClosed(closures, user, req.date.value.year, req.date.value.month) &&
             ClockOrderWrong(ClockField(req.clockIn), ClockField(req.clockOut))) ==> r == Err(ClockInNotBeforeClockOut)
    ensures EntryHeaderOk(companies, closures, user, req) && req.breakMinutes < 0 ==> r == Err(InvalidBreak)
    ensures (EntryHeaderOk(companies, closures, user, req) && req.breakMinutes >= 0 &&
             (req.dayHours < 0.0 || req.nightHours < 0.0)) ==> r == Err(InvalidHours)
    ensures EntryHeaderOk(companies, closures, user, req) && EntryNumbersOk(req) ==>
      var c := GetCompany(companies, user, req.companyId).value;
      var bonus := OptionalAmount(req.bonus, c.currency);
      var pluses := OptionalAmount(req.pluses, c.currency);
      var advances := OptionalAmount(req.advances, c.currency);
      (bonus.Err? ==> r == Err(bonus.error)) &&
      (bonus.Ok? && pluses.Err? ==> r == Err(pluses.error)) &&
      (bonus.Ok? && pluses.Ok? && advances.Err? ==> r == Err(advances.error)) &&
      (bonus.Ok? && pluses.Ok? && advances.Ok? ==>
        var gross := ComputeGrossDay(req.dayHours, req.nightHours, c.dayRate, c.nightRate, bonus.value, pluses.value);
        (r.Ok? <==> EntryColumnsFit(req.breakMinutes, bonus.value, pluses.value, advances.value, gross)) &&
        (r.Err? ==> r.error == IntegerOverflow))
    ensures r.Ok? ==>
      var c := GetCompany(companies, user, req.companyId).value;
      var e := r.value;
      EntryHeaderOk(companies, closures, user, req) && EntryNumbersOk(req) &&
      e.id == id && e.userId == user && e.companyId == req.companyId &&
      Some(e.date) == req.date && ValidDate(e.date) && !IsMonthClosed(closures, user, e.date.year, e.date.month) &&
      e.clockIn == ClockField(req.clockIn) && e.clockOut == ClockField(req.clockOut) &&
      !ClockOrderWrong(e.clockIn, e.clockOut) &&
      e.breakMinutes == req.breakMinutes >= 0 &&
      e.dayHours == req.dayHours >= 0.0 && e.nightHours == req.nightHours >= 0.0 &&
      OptionalAmount(req.bonus, c.currency) == Ok(e.bonus) &&
      OptionalAmount(req.pluses, c.currency) == Ok(e.pluses) &&
      OptionalAmount(req.advances, c.currency) == Ok(e.advances) &&
      e.grossDay == ComputeGrossDay(e.dayHours, e.nightHours, c.dayRate, c.nightRate, e.bonus, e.pluses) &&
      EntryColumnsFit(e.breakMinutes, e.bonus, e.pluses, e.advances, e.grossDay)
  {
    match GetCompany(companies, user, req.companyId)
    case Err(e) => Err(e)
    case Ok(c) =>
      if !DateOk(req.date) then Err(InvalidDate)
      else
        var d := req.date.value;
        match EnsureMonthOpen(closures, user, d)
        case Fail(e) => Err(e)
        case Pass =>
          var clockIn := ClockField(req.clockIn);
          var clockOut := ClockField(req.clockOut);
          if ClockOrderWrong(clockIn, clockOut) then Err(ClockInNotBeforeClockOut)
          else if req.breakMinutes < 0 then Err(InvalidBreak)
          else if req.dayHours < 0.0 || req.nightHours < 0.0 then Err(InvalidHours)
          else match OptionalAmount(req.bonus, c.currency)
            case Err(e) => Err(e)
            case Ok(bonus) =>
              match OptionalAmount(req.pluses, c.currency)
              case Err(e) => Err(e)
              case Ok(pluses) =>
                match OptionalAmount(req.advances, c.currency)
                case Err(e) => Err(e)
                case Ok(advances) =>
                  var gross := ComputeGrossDay(req.dayHours, req.nightHours, c.dayRate, c.nightRate, bonus, pluses);
                  if !EntryColumnsFit(req.breakMinutes, bonus, pluses, advances, gross) then Err(IntegerOverflow)
                  else Ok(WorkEntry(id, user, req.companyId, d, clockIn, clockOut, req.breakMinutes,
                                    req.dayHours, req.nightHours, bonus, pluses, advances, gross))
  }
  /** What the entry insert relies on from a passing validation. */
  lemma WorkEntryAccepted(companies: seq<Company>, closures: seq<Closure>, user: Id, req: WorkEntryRequest, id: Id)
    requires ValidateWorkEntry(companies, closures, user, req, id).Ok?
    ensures var e := ValidateWorkEntry(companies, closures, user, req, id).value;
      GetCompany(companies, e.userId, e.companyId).Ok? &&
      ValidDate(e.date) && !IsMonthClosed(closures, e.userId, e.date.year, e.date.month)
  {
  }


  // ---------------------------------------------------------------------------
  // Debts and debt payments

  datatype DebtRequest = DebtRequest(creditor: string, currency: Option<string>, total: string)

  /** The checks of `api_create_debt`, in order (creditor, currency, total,
      then the INSERT binding the total), and the row it inserts. */
  function ValidateDebt(req: DebtRequest, user: Id, id: Id): (r: Result<Debt>)
    ensures Strip(req.creditor) == [] ==> r == Err(CreditorRequired)
    ensures Strip(req.creditor) != [] && NormalizeCurrency(req.currency) !in SupportedCurrencies ==> r == Err(InvalidCurrency)
    ensures Strip(req.creditor) != [] && NormalizeCurrency(req.currency) in SupportedCurrencies ==>
      var total := ParseMoneyToCents(req.total, NormalizeCurrency(req.currency));
      (total.Err? ==> r == Err(total.error)) &&
      (total.Ok? ==> (r.Ok? <==> FitsInt64(total.value)) && (r.Err? ==> r.error == IntegerOverflow))
    ensures r.Ok? ==>
      Strip(req.creditor) != [] && NormalizeCurrency(req.currency) in SupportedCurrencies &&
      r.value.id == id && r.value.userId == user && r.value.creditor == Strip(req.creditor) &&
      r.value.currency == NormalizeCurrency(req.currency) &&
      ParseMoneyToCents(req.total, r.value.currency) == Ok(r.value.total) && FitsInt64(r.value.total)
  {
    var creditor := Strip(req.creditor);
    var currency := NormalizeCurrency(req.currency);
    if creditor == [] then Err(CreditorRequired)
    else if currency !in SupportedCurrencies then Err(InvalidCurrency)
    else match ParseMoneyToCents(req.total, currency)
      case Err(e) => Err(e)
      case Ok(total) =>
        if !FitsInt64(total) then Err(IntegerOverflow)
        else Ok(Debt(id, user, creditor, total, currency))
  }

  datatype PaymentRequest = PaymentRequest(date: Option<Date>, amount: string)

  /** The checks of `api_create_debt_payment` before the amount pass: a
      valid date in an open month, and a debt of the caller. */
  predicate PaymentHeaderOk(debts: seq<Debt>, closures: seq<Closure>, user: Id, debtId: Id, req: PaymentRequest) {
    DateOk(req.date) && !IsMonthClosed(closures, user, req.date.value.year, req.date.value.month) &&
    FindDebt(debts, user, debtId).Ok?
  }

  /** The checks of `api_create_debt_payment`, in order: the date, the
      month being open, the debt being the caller's, the amount in the
      debt's currency, then the INSERT binding the amount. The result is the
      debt and the amount. */
  function ValidatePayment(debts: seq<Debt>, closures: seq<Closure>, user: Id, debtId: Id, req: PaymentRequest): (r: Result<(Debt, int)>)
    ensures !DateOk(req.date) ==> r == Err(InvalidDate)
    ensures (DateOk(req.date) && IsMonthClosed(closures, user, req.date.value.year, req.date.value.month)) ==>
      r == Err(MonthClosed)
    ensures (DateOk(req.date) && !IsMonthClosed(closures, user, req.date.value.year, req.date.value.month) &&
             FindDebt(debts, user, debtId).Err?) ==> r == Err(DebtNotFound)
    ensures PaymentHeaderOk(debts, closures, user, debtId, req) ==>
      var amount := ParseMoneyToCents(req.amount, FindDebt(debts, user, debtId).value.currency);
      (amount.Err? ==> r == Err(amount.error)) &&
      (amount.Ok? ==> (r.Ok? <==> FitsInt64(amount.value)) && (r.Err? ==> r.error == IntegerOverflow))
    ensures r.Ok? ==>
      PaymentHeaderOk(debts, closures, user, debtId, req) &&
      r.value.0 == FindDebt(debts, user, debtId).value &&
      ParseMoneyToCents(req.amount, r.value.0.currency) == Ok(r.value.1) &&
      FitsInt64(r.value.1) && FitsInt64(-r.value.1)
  {
    if !DateOk(req.date) then Err(InvalidDate)
    else match EnsureMonthOpen(closures, user, req.date.value)
      case Fail(e) => Err(e)
      case Pass =>
        match FindDebt(debts, user, debtId)
        case Err(e) => Err(e)
        case Ok(debt) =>
          match ParseMoneyToCents(req.amount, debt.currency)
          case Err(e) => Err(e)
          case Ok(amount) =>
            if !FitsInt64(amount) then Err(IntegerOverflow) else Ok((debt, amount))
  }

  /** `f"Pago deuda {debt_id}"`. */
  function PaymentNote(debtId: Id): (note: string)
    ensures |note| > 11 && note[..11] == "Pago deuda "
    ensures AllDigits(note[11..]) && DigitsValue(note[11..]) == debtId
    ensures |note| > 12 ==> note[11] != '0'
  {
    var digits := NatToDigits(debtId);
    var note := "Pago deuda " + digits;
    assert note[11..] == digits;
    note
  }

  /** The movement a debt payment posts. */
  function PaymentMovement(p: DebtPayment, currency: string, movementId: Id): (mv: BankMovement)
    ensures mv.userId == p.userId && mv.date == p.date && mv.kind == KindDebtPayment
    ensures mv.amount == -p.amount && mv.currency == currency
    ensures mv.link == DebtPaymentLink(p.id)
  {
    BankMovement(movementId, p.userId, p.date, KindDebtPayment, -p.amount, currency, PaymentNote(p.debtId), DebtPaymentLink(p.id))
  }

  // ---------------------------------------------------------------------------
  // Month closure request

  /** `api_close_month`'s range check. */
  function CheckClosePeriod(y: int, m: int): (o: Outcome)
    ensures o.Pass? <==> 2000 <= y <= 2100 && 1 <= m <= 12
    ensures o.Fail? ==> o.error == InvalidMonth
    ensures o.Pass? ==> ValidPeriod(y, m)
  {
    if y < 2000 || y > 2100 || m < 1 || m > 12 then Fail(InvalidMonth) else Pass
  }

  /** `api_premium_annual_projection`'s year check. */
  function CheckProjectionYear(y: int): (o: Outcome)
    ensures o.Pass? <==> 2000 <= y <= 2100
    ensures o.Fail? ==> o.error == InvalidYear
    ensures o.Pass? ==> forall m :: 1 <= m <= 12 ==> ValidPeriod(y, m)
  {
    if y < 2000 || y > 2100 then Fail(InvalidYear) else Pass
  }
}
