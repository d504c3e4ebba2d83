/** Failure-compatible wrappers and the error conditions the ledger raises.
    Every `ValueError` (or HTTP error) the source produces at an identifiable
    line becomes one constructor of `Error`. */
module Common {

  datatype Option<+T> = None | Some(value: T)

  datatype Error =
    // money parsing (app/utils.py)
    | UnsupportedCurrency
    | InvalidAmount
    | NonPositiveAmount
    // `quantize` needing more than the 28 digits of the default decimal context
    | AmountTooLarge
    // a value outside SQLite's 64-bit INTEGER range, refused when an INSERT binds it
    | IntegerOverflow
    // dates and periods
    | InvalidDate
    | InvalidMonth
    | InvalidYear
    // month closure
    | MonthClosed
    | AlreadyClosed
    // lookups scoped by owner
    | CompanyNotFound
    | DebtNotFound
    | UserNotFound
    // input validation of the creation handlers
    | NameRequired
    | InvalidCurrency
    | InvalidIrpf
    | DuplicateCompanyName
    | CategoryRequired
    | ConceptRequired
    | CreditorRequired
    | ClockInNotBeforeClockOut
    | InvalidBreak
    | InvalidHours
    // authentication and tier gates
    | NotAuthenticated
    | AccountSuspended
    | NotAuthorized
    | PremiumRequired
    // role policy of the admin handlers
    | InsufficientPrivilege
    | InvalidPlanRole
    | OwnPlan
    | PlanOnlyForFreeOrPremium
    | InvalidRole
    | OwnRole
    | OwnerNotModifiable
    | OnlyOwnerModifiesSuperAdmin
    | SuperAdminCannotAssign
    | OwnerNotAssignable
    | OnlyOwnerAssignsSuperAdmin
    | InvalidToken
    | OwnerLimitReached

  datatype Result<+T> = Ok(value: T) | Err(error: Error)

  datatype Outcome = Pass | Fail(error: Error)
}
