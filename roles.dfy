/** Account tiers and the "strictly higher tier manages" rule of
    app/services.py. */
module Roles {
  import opened Common

  const RoleFree: string := "ROLE_FREE"
  const RolePremium: string := "ROLE_PREMIUM"
  const RoleAdmin: string := "ROLE_ADMIN"
  const RoleSuperAdmin: string := "ROLE_SUPER_ADMIN"
  const RoleOwner: string := "ROLE_OWNER"

  /** The five known roles, lowest tier first. */
  const AllRoles: seq<string> := [RoleFree, RolePremium, RoleAdmin, RoleSuperAdmin, RoleOwner]

  /** `role_level(role)`: `ROLE_LEVEL.get(role, 0)`. */
  function RoleLevel(role: string): (n: nat)
    ensures role !in AllRoles <==> n == 0
    ensures n <= 50
  {
    if role == RoleFree then 10
    else if role == RolePremium then 20
    else if role == RoleAdmin then 30
    else if role == RoleSuperAdmin then 40
    else if role == RoleOwner then 50
    else 0
  }

  /** The tiers are strictly increasing in the order FREE, PREMIUM, ADMIN,
      SUPER_ADMIN, OWNER, so distinct known roles have distinct levels. */
  lemma RoleLevelsStrictlyIncrease()
    ensures forall i, j :: 0 <= i < j < |AllRoles| ==> RoleLevel(AllRoles[i]) < RoleLevel(AllRoles[j])
    ensures RoleLevel(RoleFree) == 10 && RoleLevel(RoleOwner) == 50
  {
  }

  lemma RoleLevelInjective(a: string, b: string)
    requires a in AllRoles && b in AllRoles && RoleLevel(a) == RoleLevel(b)
    ensures a == b
  {
  }

  /** `can_manage_user(actor_role, target_role)`. */
  predicate CanManageUser(actorRole: string, targetRole: string) {
    RoleLevel(actorRole) > RoleLevel(targetRole)
  }

  lemma CanManageIrreflexive(r: string)
    ensures !CanManageUser(r, r)
  {
  }

  lemma CanManageAsymmetric(a: string, b: string)
    requires CanManageUser(a, b)
    ensures !CanManageUser(b, a)
  {
  }

  lemma CanManageTransitive(a: string, b: string, c: string)
    requires CanManageUser(a, b) && CanManageUser(b, c)
    ensures CanManageUser(a, c)
  {
  }

  /** An unknown role manages nobody, and every known role manages it. */
  lemma UnknownRoleManagesNobody(u: string, r: string)
    requires u !in AllRoles
    ensures !CanManageUser(u, r)
    ensures r in AllRoles ==> CanManageUser(r, u)
  {
  }

  /** `ensure_can_manage_user`: fails exactly when `can_manage_user` is false. */
  function EnsureCanManageUser(actorRole: string, targetRole: string): (o: Outcome)
    ensures o.Pass? <==> RoleLevel(actorRole) > RoleLevel(targetRole)
    ensures o.Fail? ==> o.error == InsufficientPrivilege
  {
    if CanManageUser(actorRole, targetRole) then Pass else Fail(InsufficientPrivilege)
  }

  /** The tier checks the admin tests exercise. */
  lemma ManageExamples()
    ensures EnsureCanManageUser(RoleAdmin, RoleAdmin) == Fail(InsufficientPrivilege)
    ensures EnsureCanManageUser(RoleAdmin, RoleSuperAdmin) == Fail(InsufficientPrivilege)
    ensures EnsureCanManageUser(RoleAdmin, RolePremium) == Pass
    ensures EnsureCanManageUser(RoleSuperAdmin, RoleAdmin) == Pass
    ensures EnsureCanManageUser(RoleOwner, RoleSuperAdmin) == Pass
  {
  }
}
