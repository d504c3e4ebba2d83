/** The account-administration handlers of app/main.py: the `require_*_user`
    tier gates, and the set-plan, set-role and claim-owner handlers. The
    `users` table is a sequence of rows with unique ids; each handler runs
    its guard chain over that table and then issues one
    `UPDATE users SET role = ? WHERE id = ?`. */
module Admin {
  import opened Common
  import opened Text
  import opened Roles

  type Id = nat

  /** A `users` row: `role` is the stored column (`""` stands for NULL), and
      `deleted` says whether `deleted_at` is set. */
  datatype User = User(id: Id, role: string, active: bool, deleted: bool)

  predicate UniqueUserIds(users: seq<User>) {
    forall i, j :: 0 <= i < j < |users| ==> users[i].id != users[j].id
  }

  predicate HasUser(users: seq<User>, id: Id) {
    exists i :: 0 <= i < |users| && users[i].id == id
  }

  // ---------------------------------------------------------------------------
  // Lookups

  /** `str(row["role"] or ROLE_FREE)`: an empty role reads as FREE. */
  function EffectiveRole(stored: string): (r: string)
    ensures stored != "" ==> r == stored
    ensures r != ""
    ensures r in AllRoles <==> stored in AllRoles || stored == ""
  {
    if stored == "" then RoleFree else stored
  }

  /** `get_user(user_id)`: the row with that id, its role read through
      `role or ROLE_FREE`, or "Usuario no encontrado". */
  function GetUser(users: seq<User>, id: Id): (r: Result<User>)
    ensures r.Err? <==> !HasUser(users, id)
    ensures r.Err? ==> r.error == UserNotFound
    ensures r.Ok? ==> exists i :: 0 <= i < |users| && users[i].id == id && r.value == users[i].(role := EffectiveRole(users[i].role))
  {
    if users == [] then Err(UserNotFound)
    else if users[0].id == id then Ok(users[0].(role := EffectiveRole(users[0].role)))
    else
      var r := GetUser(users[1..], id);
      assert forall i :: 1 <= i < |users| ==> users[i] == users[1..][i - 1];
      assert HasUser(users[1..], id) ==> HasUser(users, id);
      r
  }

  /** With unique ids, the row found is the one at any index holding the id. */
  lemma GetUserAt(users: seq<User>, k: int)
    requires UniqueUserIds(users) && 0 <= k < |users|
    ensures GetUser(users, users[k].id) == Ok(users[k].(role := EffectiveRole(users[k].role)))
  {
  }

  // ---------------------------------------------------------------------------
  // Tier gates

  /** `require_user_record`: a session naming an existing, active and not
      deleted user. */
  function RequireUserRecord(users: seq<User>, session: Option<Id>): (r: Result<User>)
    ensures session.None? ==> r == Err(NotAuthenticated)
    ensures r.Ok? <==>
      (session.Some? && GetUser(users, session.value).Ok? &&
       GetUser(users, session.value).value.active && !GetUser(users, session.value).value.deleted)
    ensures r.Ok? ==> r.value == GetUser(users, session.value).value && r.value.id == session.value
    ensures session.Some? && GetUser(users, session.value).Err? ==> r == Err(UserNotFound)
    ensures session.Some? && GetUser(users, session.value).Ok? && r.Err? ==> r.error == AccountSuspended
  {
    if session.None? then Err(NotAuthenticated)
    else
      match GetUser(users, session.value)
      case Err(e) => Err(e)
      case Ok(u) =>
        if !u.active || u.deleted then Err(AccountSuspended) else Ok(u)
  }

  /** `role_level(user.role) < role_level(minimum)` rejects with `e`. */
  function RequireLevel(users: seq<User>, session: Option<Id>, minimum: string, e: Error): (r: Result<User>)
    ensures r.Ok? <==>
      (RequireUserRecord(users, session).Ok? &&
       RoleLevel(RequireUserRecord(users, session).value.role) >= RoleLevel(minimum))
    ensures r.Ok? ==> r == RequireUserRecord(users, session)
    ensures RequireUserRecord(users, session).Err? ==> r == RequireUserRecord(users, session)
    ensures RequireUserRecord(users, session).Ok? && r.Err? ==> r.error == e
  {
    match RequireUserRecord(users, session)
    case Err(err) => Err(err)
    case Ok(u) => if RoleLevel(u.role) < RoleLevel(minimum) then Err(e) else Ok(u)
  }

  /** `require_admin_user`. */
  function RequireAdmin(users: seq<User>, session: Option<Id>): (r: Result<User>)
    ensures r.Ok? ==> RoleLevel(r.value.role) >= 30 && r.value.role in AllRoles
  {
    RequireLevel(users, session, RoleAdmin, NotAuthorized)
  }

  /** `require_super_admin_user`. */
  function RequireSuperAdmin(users: seq<User>, session: Option<Id>): (r: Result<User>)
    ensures r.Ok? ==> r.value.role == RoleSuperAdmin || r.value.role == RoleOwner
  {
    RequireLevel(users, session, RoleSuperAdmin, NotAuthorized)
  }

  /** `require_premium_user`: HTTP 402 below PREMIUM. */
  function RequirePremium(users: seq<User>, session: Option<Id>): (r: Result<User>)
    ensures r.Ok? ==> RoleLevel(r.value.role) >= 20 && r.value.role in AllRoles
  {
    RequireLevel(users, session, RolePremium, PremiumRequired)
  }

  /** `require_owner_user`: the role itself must be OWNER. */
  function RequireOwner(users: seq<User>, session: Option<Id>): (r: Result<User>)
    ensures r.Ok? <==> RequireUserRecord(users, session).Ok? && RequireUserRecord(users, session).value.role == RoleOwner
    ensures r.Ok? ==> r == RequireUserRecord(users, session)
    ensures RequireUserRecord(users, session).Ok? && r.Err? ==> r.error == NotAuthorized
  {
    match RequireUserRecord(users, session)
    case Err(err) => Err(err)
    case Ok(u) => if u.role != RoleOwner then Err(NotAuthorized) else Ok(u)
  }

  /** The gates are nested: passing a higher one passes every lower one. */
  lemma GatesNested(users: seq<User>, session: Option<Id>)
    ensures RequireOwner(users, session).Ok? ==> RequireSuperAdmin(users, session).Ok?
    ensures RequireSuperAdmin(users, session).Ok? ==> RequireAdmin(users, session).Ok?
    ensures RequireAdmin(users, session).Ok? ==> RequirePremium(users, session).Ok?
    ensures RequirePremium(users, session).Ok? ==> RequireUserRecord(users, session).Ok?
  {
  }

  // ---------------------------------------------------------------------------
  // The role update and the owner count

  /** `UPDATE users SET role = ? WHERE id = ?`. */
  function SetRoleWhere(users: seq<User>, id: Id, role: string): (r: seq<User>)
    ensures |r| == |users|
    ensures forall i :: 0 <= i < |users| ==>
      r[i] == if users[i].id == id then users[i].(role := role) else users[i]
  {
    if users == [] then []
    else
      var n := |users| - 1;
      var u := users[n];
      SetRoleWhere(users[..n], id, role) + [if u.id == id then u.(role := role) else u]
  }

  /** Some user row has the OWNER role. */
  predicate HasOwner(users: seq<User>) {
    exists i :: 0 <= i < |users| && users[i].role == RoleOwner
  }

  /** `SELECT COUNT(*) FROM users WHERE role = 'ROLE_OWNER'`. */
  function OwnerCount(users: seq<User>): (c: nat)
    ensures c <= |users|
  {
    if users == [] then 0
    else OwnerCount(users[..|users| - 1]) + (if users[|users| - 1].role == RoleOwner then 1 else 0)
  }
  /** The count is zero exactly when no user is OWNER. */
  lemma {:induction false} OwnerCountZero(users: seq<User>)
    ensures OwnerCount(users) == 0 <==> !HasOwner(users)
  {
    if users != [] {
      var pre := users[..|users| - 1];
      OwnerCountZero(pre);
      if HasOwner(pre) {
        var i :| 0 <= i < |pre| && pre[i].role == RoleOwner;
        assert users[i] == pre[i];
      }
    }
  }


  /** Updating an id no row has changes nothing. */
  lemma SetRoleWhereAbsent(users: seq<User>, id: Id, role: string)
    requires !HasUser(users, id)
    ensures SetRoleWhere(users, id, role) == users
  {
  }

  /** Rewriting the role of the one row with the id changes the owner count
      by that row alone: minus one if it was OWNER, plus one if it becomes
      OWNER. */
  lemma {:induction false} OwnerCountAfterUpdate(users: seq<User>, k: int, role: string)
    requires UniqueUserIds(users) && 0 <= k < |users|
    ensures OwnerCount(SetRoleWhere(users, users[k].id, role)) ==
      OwnerCount(users) - (if users[k].role == RoleOwner then 1 else 0) + (if role == RoleOwner then 1 else 0)
  {
    var n := |users| - 1;
    var id := users[k].id;
    var r := SetRoleWhere(users, id, role);
    assert r[..n] == SetRoleWhere(users[..n], id, role);
    if k == n {
      assert !HasUser(users[..n], id);
      SetRoleWhereAbsent(users[..n], id, role);
    } else {
      OwnerCountAfterUpdate(users[..n], k, role);
    }
  }

  /** Any update by id keeps the ids, hence their uniqueness. */
  lemma SetRoleWhereKeepsIds(users: seq<User>, id: Id, role: string)
    requires UniqueUserIds(users)
    ensures UniqueUserIds(SetRoleWhere(users, id, role))
    ensures forall i :: 0 <= i < |users| ==> SetRoleWhere(users, id, role)[i].id == users[i].id
  {
  }

  /** After the update, `get_user` reads the new role back. */
  lemma GetUserAfterUpdate(users: seq<User>, id: Id, role: string)
    requires UniqueUserIds(users) && HasUser(users, id) && role != ""
    ensures GetUser(SetRoleWhere(users, id, role), id) == Ok(users[IndexOf(users, id)].(role := role))
  {
    var k := IndexOf(users, id);
    var r := SetRoleWhere(users, id, role);
    SetRoleWhereKeepsIds(users, id, role);
    GetUserAt(r, k);
  }

  /** The index of the row holding an id that is present. */
  function IndexOf(users: seq<User>, id: Id): (k: nat)
    requires HasUser(users, id)
    ensures k < |users| && users[k].id == id
  {
    if users[0].id == id then 0
    else
      assert HasUser(users[1..], id) by {
        var i :| 0 <= i < |users| && users[i].id == id;
        assert users[1..][i - 1] == users[i];
      }
      1 + IndexOf(users[1..], id)
  }

  // ---------------------------------------------------------------------------
  // The guard chains

  /** A role a plan change may read or write. */
  predicate PlanRole(role: string) {
    role == RoleFree || role == RolePremium
  }

  /** `api_admin_set_plan` up to the UPDATE: the target's record when every
      guard passes, in the handler's order. */
  function SetPlanCheck(users: seq<User>, session: Option<Id>, targetId: Id, desiredRaw: string): (r: Result<User>)
    ensures r.Ok? <==>
      (RequireAdmin(users, session).Ok? && PlanRole(Strip(desiredRaw)) &&
       session.value != targetId && GetUser(users, targetId).Ok? && PlanRole(GetUser(users, targetId).value.role))
    ensures r.Ok? ==> r == GetUser(users, targetId)
    ensures RequireAdmin(users, session).Ok? && !PlanRole(Strip(desiredRaw)) ==> r == Err(InvalidPlanRole)
    ensures RequireAdmin(users, session).Ok? && PlanRole(Strip(desiredRaw)) && session.value == targetId ==> r == Err(OwnPlan)
    ensures RequireAdmin(users, session).Err? ==> r == Err(RequireAdmin(users, session).error)
    ensures (RequireAdmin(users, session).Ok? && PlanRole(Strip(desiredRaw)) && session.value != targetId &&
             GetUser(users, targetId).Err?)
      ==> r == Err(UserNotFound)
    ensures (RequireAdmin(users, session).Ok? && PlanRole(Strip(desiredRaw)) && session.value != targetId &&
             GetUser(users, targetId).Ok? && !PlanRole(GetUser(users, targetId).value.role))
      ==> r == Err(PlanOnlyForFreeOrPremium)
  {
    match RequireAdmin(users, session)
    case Err(e) => Err(e)
    case Ok(admin) =>
      var desired := Strip(desiredRaw);
      if !PlanRole(desired) then Err(InvalidPlanRole)
      else if admin.id == targetId then Err(OwnPlan)
      else
        match GetUser(users, targetId)
        case Err(e) => Err(e)
        case Ok(target) =>
          if !PlanRole(target.role) then Err(PlanOnlyForFreeOrPremium)
          else match EnsureCanManageUser(admin.role, target.role)
            case Fail(e) => Err(e)
            case Pass => Ok(target)
  }

  /** The target is neither OWNER nor, for an actor who is not OWNER, a
      SUPER_ADMIN. */
  predicate TargetModifiable(actor: User, target: User) {
    target.role != RoleOwner && !(target.role == RoleSuperAdmin && actor.role != RoleOwner)
  }

  /** The guards of `api_admin_set_role` after the target is loaded, in the
      handler's order. */
  function SetRoleRules(actor: User, target: User, desired: string): (o: Outcome)
    ensures o.Pass? ==> target.role != RoleOwner && desired != RoleOwner
    ensures o.Pass? ==> CanManageUser(actor.role, target.role)
    ensures target.role == RoleOwner ==> o == Fail(OwnerNotModifiable)
    ensures target.role == RoleSuperAdmin && actor.role != RoleOwner ==> o == Fail(OnlyOwnerModifiesSuperAdmin)
    ensures TargetModifiable(actor, target) && !CanManageUser(actor.role, target.role) ==> o == Fail(InsufficientPrivilege)
    ensures (TargetModifiable(actor, target) && CanManageUser(actor.role, target.role) &&
             actor.role == RoleSuperAdmin && desired !in [RoleFree, RolePremium, RoleAdmin])
      ==> o == Fail(SuperAdminCannotAssign)
    ensures (TargetModifiable(actor, target) && CanManageUser(actor.role, target.role) &&
             actor.role != RoleSuperAdmin && desired == RoleOwner)
      ==> o == Fail(OwnerNotAssignable)
    ensures (TargetModifiable(actor, target) && CanManageUser(actor.role, target.role) &&
             actor.role != RoleSuperAdmin && actor.role != RoleOwner && desired == RoleSuperAdmin)
      ==> o == Fail(OnlyOwnerAssignsSuperAdmin)
  {
    if target.role == RoleOwner then Fail(OwnerNotModifiable)
    else if target.role == RoleSuperAdmin && actor.role != RoleOwner then Fail(OnlyOwnerModifiesSuperAdmin)
    else match EnsureCanManageUser(actor.role, target.role)
      case Fail(e) => Fail(e)
      case Pass =>
        if actor.role == RoleSuperAdmin && desired !in [RoleFree, RolePremium, RoleAdmin] then Fail(SuperAdminCannotAssign)
        else if desired == RoleOwner then Fail(OwnerNotAssignable)
        else if desired == RoleSuperAdmin && actor.role != RoleOwner then Fail(OnlyOwnerAssignsSuperAdmin)
        else Pass
  }

  /** What the rules guarantee for an actor who passed the SUPER_ADMIN gate:
      the actor is of a strictly higher tier than both the old and the new
      role, OWNER is neither, and only an OWNER touches SUPER_ADMIN on either
      side. */
  lemma SetRoleRulesPolicy(actor: User, target: User, desired: string)
    requires actor.role == RoleSuperAdmin || actor.role == RoleOwner
    requires desired in AllRoles
    requires SetRoleRules(actor, target, desired).Pass?
    ensures target.role != RoleOwner && desired != RoleOwner
    ensures RoleLevel(target.role) < RoleLevel(actor.role) && RoleLevel(desired) < RoleLevel(actor.role)
    ensures (desired == RoleSuperAdmin || target.role == RoleSuperAdmin) ==> actor.role == RoleOwner
  {
  }

  /** `api_admin_set_role` up to the UPDATE, in the handler's order. */
  function SetRoleCheck(users: seq<User>, session: Option<Id>, targetId: Id, desiredRaw: string): (r: Result<User>)
    ensures r.Ok? <==>
      (RequireSuperAdmin(users, session).Ok? && Strip(desiredRaw) in AllRoles &&
       session.value != targetId && GetUser(users, targetId).Ok? &&
       SetRoleRules(RequireSuperAdmin(users, session).value, GetUser(users, targetId).value, Strip(desiredRaw)).Pass?)
    ensures r.Ok? ==> r == GetUser(users, targetId)
    ensures RequireSuperAdmin(users, session).Ok? && Strip(desiredRaw) !in AllRoles ==> r == Err(InvalidRole)
    ensures RequireSuperAdmin(users, session).Ok? && Strip(desiredRaw) in AllRoles && session.value == targetId ==> r == Err(OwnRole)
    ensures RequireSuperAdmin(users, session).Err? ==> r == Err(RequireSuperAdmin(users, session).error)
    ensures (RequireSuperAdmin(users, session).Ok? && Strip(desiredRaw) in AllRoles && session.value != targetId &&
             GetUser(users, targetId).Err?)
      ==> r == Err(UserNotFound)
    ensures (RequireSuperAdmin(users, session).Ok? && Strip(desiredRaw) in AllRoles && session.value != targetId &&
             GetUser(users, targetId).Ok? &&
             SetRoleRules(RequireSuperAdmin(users, session).value, GetUser(users, targetId).value, Strip(desiredRaw)).Fail?)
      ==> r == Err(SetRoleRules(RequireSuperAdmin(users, session).value, GetUser(users, targetId).value, Strip(desiredRaw)).error)
  {
    match RequireSuperAdmin(users, session)
    case Err(e) => Err(e)
    case Ok(actor) =>
      var desired := Strip(desiredRaw);
      if desired !in AllRoles then Err(InvalidRole)
      else if actor.id == targetId then Err(OwnRole)
      else
        match GetUser(users, targetId)
        case Err(e) => Err(e)
        case Ok(target) =>
          match SetRoleRules(actor, target, desired)
          case Fail(e) => Err(e)
          case Pass => Ok(target)
  }

  /** A passing set-role is made by someone other than the target. */
  lemma SetRolePolicy(users: seq<User>, session: Option<Id>, targetId: Id, desiredRaw: string)
    requires SetRoleCheck(users, session, targetId, desiredRaw).Ok?
    ensures var actor := RequireSuperAdmin(users, session).value;
            var target := GetUser(users, targetId).value;
            var desired := Strip(desiredRaw);
      actor.id != targetId && desired in AllRoles && desired != RoleOwner && target.role != RoleOwner &&
      RoleLevel(target.role) < RoleLevel(actor.role) && RoleLevel(desired) < RoleLevel(actor.role) &&
      ((desired == RoleSuperAdmin || target.role == RoleSuperAdmin) ==> actor.role == RoleOwner)
  {
    SetRoleRulesPolicy(RequireSuperAdmin(users, session).value, GetUser(users, targetId).value, Strip(desiredRaw));
  }

  /** A set-plan that passes its guards moves a FREE or PREMIUM user to FREE or
      PREMIUM, by a different user of at least ADMIN tier; the tier check of
      `ensure_can_manage_user` is then already implied by the other guards. */
  lemma SetPlanPolicy(users: seq<User>, session: Option<Id>, targetId: Id, desiredRaw: string)
    ensures SetPlanCheck(users, session, targetId, desiredRaw) != Err(InsufficientPrivilege) ||
      RequireAdmin(users, session) == Err(InsufficientPrivilege)
    ensures SetPlanCheck(users, session, targetId, desiredRaw).Ok? ==>
      var admin := RequireAdmin(users, session).value;
      var target := GetUser(users, targetId).value;
      admin.id != targetId && RoleLevel(admin.role) >= RoleLevel(RoleAdmin) &&
      PlanRole(target.role) && PlanRole(Strip(desiredRaw)) && CanManageUser(admin.role, target.role)
  {
  }

  /** `api_claim_owner` up to the UPDATE: the caller's record when the
      stripped token matches a non-empty stripped bootstrap token and fewer
      than two OWNER rows exist. */
  function ClaimOwnerCheck(users: seq<User>, session: Option<Id>, tokenRaw: string, expectedRaw: string): (r: Result<User>)
    ensures r.Ok? <==>
      (RequireUserRecord(users, session).Ok? && Strip(expectedRaw) != "" &&
       Strip(tokenRaw) == Strip(expectedRaw) && OwnerCount(users) < 2)
    ensures r.Ok? ==> r == RequireUserRecord(users, session)
    ensures RequireUserRecord(users, session).Ok? && (Strip(expectedRaw) == "" || Strip(tokenRaw) != Strip(expectedRaw)) ==>
      r == Err(InvalidToken)
    ensures (RequireUserRecord(users, session).Ok? && Strip(expectedRaw) != "" &&
             Strip(tokenRaw) == Strip(expectedRaw) && OwnerCount(users) >= 2) ==>
      r == Err(OwnerLimitReached)
  {
    match RequireUserRecord(users, session)
    case Err(e) => Err(e)
    case Ok(u) =>
      var token := Strip(tokenRaw);
      var expected := Strip(expectedRaw);
      if expected == "" || token != expected then Err(InvalidToken)
      else if OwnerCount(users) >= 2 then Err(OwnerLimitReached)
      else Ok(u)
  }

  /** The `users` table, updated in place by the three handlers. */
  class Directory {
    var users: seq<User>

    ghost predicate Valid()
      reads this
    {
      UniqueUserIds(users)
    }

    constructor(initial: seq<User>)
      requires UniqueUserIds(initial)
      ensures Valid() && users == initial
    {
      users := initial;
    }

    /** The UPDATE of a row found by `get_user`. */
    method Update(id: Id, role: string)
      requires Valid() && HasUser(users, id)
      modifies this
      ensures Valid() && users == SetRoleWhere(old(users), id, role)
      ensures var k := IndexOf(old(users), id);
        OwnerCount(users) == OwnerCount(old(users)) - (if old(users)[k].role == RoleOwner then 1 else 0) +
          (if role == RoleOwner then 1 else 0)
    {
      var k := IndexOf(users, id);
      OwnerCountAfterUpdate(users, k, role);
      SetRoleWhereKeepsIds(users, id, role);
      users := SetRoleWhere(users, id, role);
    }

    /** `api_admin_set_plan`. */
    method SetPlan(session: Option<Id>, targetId: Id, desiredRaw: string) returns (r: Outcome)
      requires Valid()
      modifies this
      ensures Valid()
      ensures var c := SetPlanCheck(old(users), session, targetId, desiredRaw);
        (c.Err? ==> r == Fail(c.error) && users == old(users)) &&
        (c.Ok? ==> r == Pass && users == SetRoleWhere(old(users), targetId, Strip(desiredRaw)))
      ensures OwnerCount(users) == OwnerCount(old(users))
    {
      var c := SetPlanCheck(users, session, targetId, desiredRaw);
      if c.Err? {
        return Fail(c.error);
      }
      Update(targetId, Strip(desiredRaw));
      r := Pass;
    }

    /** `api_admin_set_role`. */
    method SetRole(session: Option<Id>, targetId: Id, desiredRaw: string) returns (r: Outcome)
      requires Valid()
      modifies this
      ensures Valid()
      ensures var c := SetRoleCheck(old(users), session, targetId, desiredRaw);
        (c.Err? ==> r == Fail(c.error) && users == old(users)) &&
        (c.Ok? ==> r == Pass && users == SetRoleWhere(old(users), targetId, Strip(desiredRaw)))
      ensures OwnerCount(users) == OwnerCount(old(users))
    {
      var c := SetRoleCheck(users, session, targetId, desiredRaw);
      if c.Err? {
        return Fail(c.error);
      }
      SetRolePolicy(users, session, targetId, desiredRaw);
      Update(targetId, Strip(desiredRaw));
      r := Pass;
    }

    /** `api_claim_owner`: a caller already OWNER is left as is. */
    method ClaimOwner(session: Option<Id>, tokenRaw: string, expectedRaw: string) returns (r: Outcome)
      requires Valid()
      modifies this
      ensures Valid()
      ensures var c := ClaimOwnerCheck(old(users), session, tokenRaw, expectedRaw);
        (c.Err? ==> r == Fail(c.error) && users == old(users)) &&
        (c.Ok? && c.value.role == RoleOwner ==> r == Pass && users == old(users)) &&
        (c.Ok? && c.value.role != RoleOwner ==> r == Pass && users == SetRoleWhere(old(users), c.value.id, RoleOwner))
      ensures r.Pass? ==> GetUser(users, session.value).Ok? && GetUser(users, session.value).value.role == RoleOwner
      ensures OwnerCount(users) <= OwnerCount(old(users)) + 1
      ensures OwnerCount(old(users)) <= 2 ==> OwnerCount(users) <= 2
    {
      var c := ClaimOwnerCheck(users, session, tokenRaw, expectedRaw);
      if c.Err? {
        return Fail(c.error);
      }
      if c.value.role == RoleOwner {
        return Pass;
      }
      GetUserAfterUpdate(users, c.value.id, RoleOwner);
      Update(c.value.id, RoleOwner);
      r := Pass;
    }
  }
}
