/** Role edits, deactivation, reactivation and the block, as steps on the site. */
module AccountStatus {
  import opened Outcomes
  import opened Accounts

  // ------------------------------------------------------------ account edits

  datatype EditOutcome = OwnRoles | SystemAdminRole | RoleNotHeld | DonorKind | Edited

  predicate WritesRoles(target: Account, wanted: set<Role>) { wanted != target.roles }

  /** True when writing `wanted` would grant or revoke the system administrator role. */
  predicate MovesSystemAdmin(target: Account, wanted: set<Role>) {
    if SystemAdmin in wanted then SystemAdmin !in target.roles else SystemAdmin in AccountRoles(target)
  }

  /** The refusal a role write meets, or None when it may go ahead. */
  function RoleRefusal(site: Site, actor: Actor, p: Pk, wanted: set<Role>): Option<EditOutcome>
    requires p in site.rows
  {
    var target := site.rows[p];
    if !WritesRoles(target, wanted) then None
    else if actor == Person(p) then Some(OwnRoles)
    else if MovesSystemAdmin(target, wanted) && SystemAdmin !in EffectiveRoles(site, actor) then Some(SystemAdminRole)
    else if ((wanted - target.roles) + (target.roles - wanted)) - AssignableRoles(site, actor, p) != {} then
      Some(RoleNotHeld)
    else None
  }

  /** `target` with the roles `wanted` and the Django flags rebuilt from them. */
  function WithRoles(target: Account, wanted: set<Role>): Account {
    var superuser := SystemAdmin in wanted;
    target.(roles := wanted, isSuperuser := superuser, isStaff := superuser || WebsiteAdmin in wanted)
  }

  /** An edit of the roles and the kind of `p`; None leaves that part alone. */
  function UpdateAccount(site: Site, actor: Actor, p: Pk, roles: Option<set<Role>>, kind: Option<PersonKind>): Reply<EditOutcome>
    requires p in site.rows
  {
    var target := site.rows[p];
    var refusal := if roles.Some? then RoleRefusal(site, actor, p, roles.value) else None;
    if refusal.Some? then Reply(refusal.value, site)
    else if kind.Some? && IsDonor(target) then Reply(DonorKind, site)
    else
      var edited := if roles.Some? && WritesRoles(target, roles.value) then WithRoles(target, roles.value) else target;
      var kinded := if kind.Some? then edited.(kind := kind.value) else edited;
      Reply(Edited, site.(rows := site.rows[p := kinded]))
  }

  /** Gives `p` the verifier role, or takes it away, keeping every other role. */
  function SetVerifier(site: Site, actor: Actor, p: Pk, wanted: bool): Reply<EditOutcome>
    requires p in site.rows
  {
    var held := site.rows[p].roles - {Verifier};
    UpdateAccount(site, actor, p, Some(if wanted then held + {Verifier} else held), None)
  }

  // ------------------------------------------------------------ the active flag

  datatype StatusOutcome =
    | DonorAccount | SystemAdminTarget | OwnAccount | RolesLacking | AlreadySo | Blocked | Changed

  function DeactivateOwn(site: Site, p: Pk): Reply<StatusOutcome>
    requires p in site.rows
  {
    var user := site.rows[p];
    if IsDonor(user) then Reply(DonorAccount, site)
    else if SystemAdmin in AccountRoles(user) then Reply(SystemAdminTarget, site)
    else Reply(Changed, site.(rows := site.rows[p := user.(isActive := false, pendingEmail := "")]))
  }

  function Deactivate(site: Site, actor: Pk, p: Pk): Reply<StatusOutcome>
    requires p in site.rows
  {
    var target := site.rows[p];
    if IsDonor(target) then Reply(DonorAccount, site)
    else if actor == p then Reply(OwnAccount, site)
    else if !MayEditProtected(site, Person(actor), target) then Reply(RolesLacking, site)
    else if !target.isActive then Reply(AlreadySo, site)
    else Reply(Changed, site.(rows := site.rows[p := target.(isActive := false, pendingEmail := "")]))
  }

  function ReactivateOwn(site: Site, p: Pk): Reply<StatusOutcome>
    requires p in site.rows
  {
    var user := site.rows[p];
    if user.reactivationBlocked then Reply(Blocked, site)
    else Reply(Changed, site.(rows := site.rows[p := user.(isActive := true)]))
  }

  function Reactivate(site: Site, actor: Pk, p: Pk): Reply<StatusOutcome>
    requires p in site.rows
  {
    var target := site.rows[p];
    if IsDonor(target) then Reply(DonorAccount, site)
    else if !MayEditProtected(site, Person(actor), target) then Reply(RolesLacking, site)
    else if target.reactivationBlocked then Reply(Blocked, site)
    else if target.isActive then Reply(AlreadySo, site)
    else Reply(Changed, site.(rows := site.rows[p := target.(isActive := true)]))
  }

  function SetReactivationBlocked(site: Site, actor: Pk, p: Pk, blocked: bool): Reply<StatusOutcome>
    requires p in site.rows
  {
    var target := site.rows[p];
    if IsDonor(target) then Reply(DonorAccount, site)
    else if actor == p then Reply(OwnAccount, site)
    else if !MayEditProtected(site, Person(actor), target) then Reply(RolesLacking, site)
    else if target.reactivationBlocked == blocked then Reply(AlreadySo, site)
    else Reply(Changed, site.(rows := site.rows[p := target.(reactivationBlocked := blocked)]))
  }
}
