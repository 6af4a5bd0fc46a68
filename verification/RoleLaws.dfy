/** Where guarded roles can come from, and why an active system administrator is always left. */
module RoleLaws {
  import opened Outcomes
  import opened Accounts
  import opened EmailChange
  import opened AccountRuns
  import Status = AccountStatus
  import Address = AddressLaws
  import Steps = RecoveryLaws

  /** A system administrator may edit any account, and anybody else one whose every guarded role they hold. */
  lemma MayEditIff(site: Site, actor: Actor, target: Account)
    ensures MayEditProtected(site, actor, target) <==>
      || SystemAdmin in EffectiveRoles(site, actor)
      || forall r :: r in GUARDED_ROLES && r in AccountRoles(target) ==> r in EffectiveRoles(site, actor)
  {
    var lacking := (AccountRoles(target) - EffectiveRoles(site, actor)) * GUARDED_ROLES;
    if lacking != {} {
      var r :| r in lacking;
      assert r in GUARDED_ROLES && r in AccountRoles(target) && r !in EffectiveRoles(site, actor);
    }
  }

  // --------------------------------------------------------- moving a role

  predicate EditsRoles(step: Step) { step.Edit? || step.MarkVerifier? }

  lemma EditMovesOnlyAllowedRoles(
    site: Site, actor: Actor, p: Pk, roles: Option<set<Role>>, kind: Option<PersonKind>, role: Role)
    requires p in site.rows && role in GUARDED_ROLES
    ensures
      var after := Status.UpdateAccount(site, actor, p, roles, kind).site;
      && p in after.rows
      && ((role in AccountRoles(after.rows[p])) != (role in AccountRoles(site.rows[p])) ==>
            && actor != Person(p)
            && (role in EffectiveRoles(site, actor) || SystemAdmin in EffectiveRoles(site, actor)))
      && (actor == Person(p) ==>
            && after.rows[p].roles == site.rows[p].roles
            && after.rows[p].isSuperuser == site.rows[p].isSuperuser)
      && (after.rows[p].roles != site.rows[p].roles ==>
            && after.rows[p].isSuperuser == (SystemAdmin in after.rows[p].roles)
            && after.rows[p].isStaff == (after.rows[p].isSuperuser || WebsiteAdmin in after.rows[p].roles))
  {
    var target := site.rows[p];
    if roles.Some? && Status.RoleRefusal(site, actor, p, roles.value).None? && Status.WritesRoles(target, roles.value) {
      var moved := (roles.value - target.roles) + (target.roles - roles.value);
      assert moved - AssignableRoles(site, actor, p) == {};
      if role in moved {
        assert role !in moved - AssignableRoles(site, actor, p);
      }
    }
  }

  /** The actor may move every role in which the two sets differ: the unguarded, and the guarded ones it holds. */
  ghost predicate MayMove(site: Site, actor: Actor, held: set<Role>, wanted: set<Role>) {
    forall r :: r in GUARDED_ROLES && (r in wanted) != (r in held) ==> r in EffectiveRoles(site, actor)
  }

  lemma IsRole(r: Role)
    ensures r in ALL_ROLES
  {
    match r {
      case MemberRole => case Verifier => case DartLeader => case UserAdmin => case Treasurer =>
      case AccountAdmin => case Management => case WebsiteAdmin => case SystemAdmin =>
    }
  }

  lemma NothingOutOfReach(site: Site, actor: Actor, p: Pk, held: set<Role>, wanted: set<Role>)
    requires actor != Person(p) && SystemAdmin !in EffectiveRoles(site, actor)
    ensures ((wanted - held) + (held - wanted)) - AssignableRoles(site, actor, p) == {} <==> MayMove(site, actor, held, wanted)
  {
    var out := ((wanted - held) + (held - wanted)) - AssignableRoles(site, actor, p);
    forall r | r in out ensures r in GUARDED_ROLES && r !in EffectiveRoles(site, actor) {
      IsRole(r);
    }
    forall r | r in GUARDED_ROLES && (r in wanted) != (r in held) && r !in EffectiveRoles(site, actor) ensures r in out {
    }
  }

  lemma AdminReachesAll(site: Site, actor: Actor, p: Pk, held: set<Role>, wanted: set<Role>)
    requires actor != Person(p) && SystemAdmin in EffectiveRoles(site, actor)
    ensures ((wanted - held) + (held - wanted)) - AssignableRoles(site, actor, p) == {}
  {
    forall r | r in (wanted - held) + (held - wanted) ensures r in AssignableRoles(site, actor, p) {
      IsRole(r);
    }
  }

  /** When a list of roles is written as asked, for somebody else: with a system administrator's power, or without. */
  lemma RolesAreWrittenIff(site: Site, actor: Actor, p: Pk, wanted: set<Role>)
    requires p in site.rows && wanted != site.rows[p].roles
    ensures Status.RoleRefusal(site, actor, p, wanted).None? <==>
      && actor != Person(p)
      && (SystemAdmin in EffectiveRoles(site, actor)
          || (MayMove(site, actor, site.rows[p].roles, wanted)
              && (SystemAdmin in AccountRoles(site.rows[p]) ==> SystemAdmin in wanted)))
  {
    if actor != Person(p) {
      if SystemAdmin in EffectiveRoles(site, actor) {
        AdminReachesAll(site, actor, p, site.rows[p].roles, wanted);
      } else {
        NothingOutOfReach(site, actor, p, site.rows[p].roles, wanted);
      }
    }
  }

  /**
   An edit goes through exactly when its roles may be written and it does not give a donor a kind; refused, it
   changes nothing.
   */
  lemma EditGoesThroughIff(site: Site, actor: Actor, p: Pk, roles: Option<set<Role>>, kind: Option<PersonKind>)
    requires p in site.rows
    ensures
      var was := site.rows[p];
      var reply := Status.UpdateAccount(site, actor, p, roles, kind);
      && (reply.outcome == Status.Edited <==>
            && (kind.Some? ==> !IsDonor(was))
            && (roles.Some? && roles.value != was.roles ==>
                  && actor != Person(p)
                  && (SystemAdmin in EffectiveRoles(site, actor)
                      || (MayMove(site, actor, was.roles, roles.value)
                          && (SystemAdmin in AccountRoles(was) ==> SystemAdmin in roles.value)))))
      && (reply.outcome != Status.Edited ==> reply.site == site)
  {
    if roles.Some? && roles.value != site.rows[p].roles {
      RolesAreWrittenIff(site, actor, p, roles.value);
    }
  }

  /** And what a refused edit says: first that nobody moves their own roles, then which roles are out of reach, then the kind. */
  lemma EditRefusalSays(site: Site, actor: Actor, p: Pk, roles: Option<set<Role>>, kind: Option<PersonKind>)
    requires p in site.rows
    ensures
      var was := site.rows[p];
      var outcome := Status.UpdateAccount(site, actor, p, roles, kind).outcome;
      var writes := roles.Some? && roles.value != was.roles;
      var admin := SystemAdmin in EffectiveRoles(site, actor);
      && (outcome == Status.OwnRoles <==> writes && actor == Person(p))
      && (outcome == Status.SystemAdminRole <==>
            writes && actor != Person(p) && !admin
            && ((SystemAdmin in roles.value && SystemAdmin !in was.roles)
                || (SystemAdmin !in roles.value && SystemAdmin in AccountRoles(was))))
      && (outcome == Status.DonorKind ==> kind.Some? && IsDonor(was))
  {
    if roles.Some? && roles.value != site.rows[p].roles {
      RolesAreWrittenIff(site, actor, p, roles.value);
    }
  }

  /** `user` is `was` but for its roles, flags and kind. */
  ghost predicate OnlyRolesAndKind(was: Account, user: Account) {
    user == was.(roles := user.roles, isSuperuser := user.isSuperuser, isStaff := user.isStaff, kind := user.kind)
  }

  lemma WritingRolesTouchesRoles(was: Account, wanted: set<Role>, kind: PersonKind)
    ensures OnlyRolesAndKind(was, was) && OnlyRolesAndKind(was, was.(kind := kind))
    ensures OnlyRolesAndKind(was, Status.WithRoles(was, wanted))
    ensures OnlyRolesAndKind(was, Status.WithRoles(was, wanted).(kind := kind))
  {
  }

  /** An edit leaves the site as it was, or with that one row written. */
  lemma EditWritesOneRow(site: Site, actor: Actor, p: Pk, roles: Option<set<Role>>, kind: Option<PersonKind>) returns (user: Account)
    requires p in site.rows
    ensures Status.UpdateAccount(site, actor, p, roles, kind).site in {site, site.(rows := site.rows[p := user])}
    ensures OnlyRolesAndKind(site.rows[p], user)
  {
    var was := site.rows[p];
    var edited := if roles.Some? && Status.WritesRoles(was, roles.value) then Status.WithRoles(was, roles.value) else was;
    user := if kind.Some? then edited.(kind := kind.value) else edited;
    WritingRolesTouchesRoles(was, if roles.Some? then roles.value else {}, if kind.Some? then kind.value else Member);
  }

  lemma EditTouchesNothingElse(site: Site, actor: Actor, p: Pk, roles: Option<set<Role>>, kind: Option<PersonKind>)
    requires p in site.rows
    ensures
      var after := Status.UpdateAccount(site, actor, p, roles, kind).site;
      && p in after.rows && OnlyRolesAndKind(site.rows[p], after.rows[p])
      && after == site.(rows := site.rows[p := after.rows[p]])
  {
    var user := EditWritesOneRow(site, actor, p, roles, kind);
    assert site.rows == site.rows[p := site.rows[p]];
  }

  /**
   An edit that goes through gives the account the roles and the kind asked for, and the Django flags those roles
   give; a list of roles the account holds already leaves its flags alone.
   */
  lemma EditDoesAsAsked(site: Site, actor: Actor, p: Pk, roles: Option<set<Role>>, kind: Option<PersonKind>)
    requires p in site.rows && Status.UpdateAccount(site, actor, p, roles, kind).outcome == Status.Edited
    ensures
      var after := Status.UpdateAccount(site, actor, p, roles, kind).site;
      && p in after.rows
      && var was, user := site.rows[p], after.rows[p];
         && user.roles == (if roles.Some? then roles.value else was.roles)
         && (user.roles == was.roles ==> user.isSuperuser == was.isSuperuser && user.isStaff == was.isStaff)
         && (user.roles != was.roles ==>
               && (user.isSuperuser <==> SystemAdmin in user.roles)
               && (user.isStaff <==> SystemAdmin in user.roles || WebsiteAdmin in user.roles))
         && user.kind == (if kind.Some? then kind.value else was.kind)
  {
  }

  /**
   Marking a verifier, or unmarking one, moves that role alone.  It goes through when there is nothing to move, and
   otherwise for anybody else, but that only a system administrator touches a superuser who lacks the role of one.
   */
  lemma MarkingMovesVerifierAlone(site: Site, actor: Actor, p: Pk, wanted: bool)
    requires p in site.rows
    ensures
      var was := site.rows[p];
      var reply := Status.SetVerifier(site, actor, p, wanted);
      && (reply.outcome == Status.Edited <==>
            || (Verifier in was.roles) == wanted
            || (actor != Person(p)
                && (SystemAdmin in EffectiveRoles(site, actor) || (was.isSuperuser ==> SystemAdmin in was.roles))))
      && (reply.outcome == Status.Edited ==>
            && p in reply.site.rows
            && forall r :: r in reply.site.rows[p].roles <==> if r == Verifier then wanted else r in was.roles)
      && (reply.outcome != Status.Edited ==> reply.site == site)
  {
    var was := site.rows[p];
    var held := was.roles - {Verifier};
    var roles := if wanted then held + {Verifier} else held;
    assert roles == was.roles <==> (Verifier in was.roles) == wanted;
    EditGoesThroughIff(site, actor, p, Some(roles), None);
    if Status.SetVerifier(site, actor, p, wanted).outcome == Status.Edited {
      EditDoesAsAsked(site, actor, p, Some(roles), None);
    }
  }

  /** The guarded roles stand, and so does the active flag unless the step is there to clear it. */
  lemma FlagStepsMoveNoRole(site: Site, step: Step)
    requires IsStatusStep(step) && !EditsRoles(step) && step.p in site.rows
    ensures
      var was := site.rows[step.p];
      && step.p in DoStatus(site, step).rows
      && var user := DoStatus(site, step).rows[step.p];
         && user.roles == was.roles && user.isSuperuser == was.isSuperuser
         && (was.isActive && !user.isActive ==> step.LeaveOwn? || step.Deactivate?)
  {
  }

  lemma LinksMoveNoRole(site: Site, change: ChangeLink, undo: UndoLink)
    ensures change.user in site.rows ==>
      var after := CompleteChange(site, change).site;
      change.user in after.rows && Steps.Modest(site.rows[change.user], after.rows[change.user])
    ensures undo.user in site.rows ==>
      var reply := UndoChange(site, undo);
      && undo.user in reply.site.rows
      && AccountRoles(reply.site.rows[undo.user]) == AccountRoles(site.rows[undo.user])
      && (!(reply.outcome.Undone? && reply.outcome.taken) ==>
            Steps.Modest(site.rows[undo.user], reply.site.rows[undo.user]))
  {
  }

  lemma ModestKeepsGuarded(was: Account, user: Account)
    requires Steps.Modest(was, user) || AccountRoles(user) == AccountRoles(was)
    ensures forall r :: r in GUARDED_ROLES ==> (r in AccountRoles(user) <==> r in AccountRoles(was))
  {
    forall r | r in GUARDED_ROLES ensures r in AccountRoles(user) <==> r in AccountRoles(was) {
      assert Steps.Modest(was, user) ==> (r in user.roles * GUARDED_ROLES <==> r in was.roles * GUARDED_ROLES);
    }
  }

  /** A step other than a role edit moves no guarded role of the account it names. */
  lemma StepMovesNoRole(site: Site, step: Step, p: Pk)
    requires !EditsRoles(step) && Subject(step) == Some(p) && p in site.rows
    ensures p in Do(site, step).rows
    ensures forall r :: r in GUARDED_ROLES ==>
      (r in AccountRoles(Do(site, step).rows[p]) <==> r in AccountRoles(site.rows[p]))
  {
    if IsStatusStep(step) {
      FlagStepsMoveNoRole(site, step);
    } else {
      match step
      case Complete(link) => LinksMoveNoRole(site, link, UndoLink(p, "", "", 0));
      case Undo(link) => LinksMoveNoRole(site, ChangeLink(p, "", "", None, 0, 0), link);
      case _ => Steps.StepIsGentle(site, step, p);
    }
    ModestKeepsGuarded(site.rows[p], Do(site, step).rows[p]);
  }

  lemma NewAccountsHoldNoGuardedRole(site: Site, step: Step, p: Pk)
    requires p in Do(site, step).rows && p !in site.rows
    ensures forall r :: r in GUARDED_ROLES ==> r !in AccountRoles(Do(site, step).rows[p])
  {
    if Subject(step).Some? {
      Steps.NobodyAppears(site, step, p);
    }
  }

  /**
   A guarded role an account gains or loses was moved by somebody else's edit, made by a
   holder of that role or a system administrator.
   */
  lemma {:induction false} GuardedRoleMovesOnlyByHolders(site: Site, step: Step, p: Pk, role: Role)
    requires Inv(site) && role in GUARDED_ROLES && p in Do(site, step).rows
    requires (p in site.rows && role in AccountRoles(site.rows[p])) != (role in AccountRoles(Do(site, step).rows[p]))
    ensures EditsRoles(step) && step.p == p && step.actor != Person(p)
    ensures role in EffectiveRoles(site, step.actor) || SystemAdmin in EffectiveRoles(site, step.actor)
  {
    if p !in site.rows {
      NewAccountsHoldNoGuardedRole(site, step, p);
    } else if Subject(step) != Some(p) {
      Steps.OthersUntouched(site, step, p);
    } else if !EditsRoles(step) {
      StepMovesNoRole(site, step, p);
    } else {
      match step
      case Edit(actor, q, roles, kind) => EditMovesOnlyAllowedRoles(site, actor, q, roles, kind, role);
      case MarkVerifier(actor, q, wanted) =>
        var held := site.rows[q].roles - {Verifier};
        EditMovesOnlyAllowedRoles(site, actor, q, Some(if wanted then held + {Verifier} else held), None, role);
    }
  }

  /** Nobody, a system administrator included, changes their own roles. */
  lemma OwnRolesNeverChange(site: Site, step: Step)
    requires EditsRoles(step) && step.p in site.rows && step.actor == Person(step.p)
    ensures step.p in Do(site, step).rows
    ensures Do(site, step).rows[step.p].roles == site.rows[step.p].roles
    ensures Do(site, step).rows[step.p].isSuperuser == site.rows[step.p].isSuperuser
  {
    match step
    case Edit(actor, q, roles, kind) => EditMovesOnlyAllowedRoles(site, actor, q, roles, kind, SystemAdmin);
    case MarkVerifier(actor, q, wanted) =>
      var held := site.rows[q].roles - {Verifier};
      EditMovesOnlyAllowedRoles(site, actor, q, Some(if wanted then held + {Verifier} else held), None, SystemAdmin);
  }

  // ------------------------------------------------------ confinement of runs

  ghost predicate HeldBySomebody(site: Site, role: Role) {
    exists p :: p in site.rows && role in AccountRoles(site.rows[p])
  }

  /** A role edit made with a system administrator's power. */
  predicate EditsAsAdmin(site: Site, step: Step) {
    EditsRoles(step) && SystemAdmin in EffectiveRoles(site, step.actor)
  }

  ghost predicate AdminEditsDuring(site: Site, events: seq<Event>)
    decreases |events|
  {
    events != [] &&
    (EditsAsAdmin(Tick(site, events[0].wait), events[0].step) || AdminEditsDuring(Apply(site, events[0]), events[1..]))
  }

  lemma StepConfinesRole(site: Site, step: Step, role: Role)
    requires Inv(site) && role in GUARDED_ROLES
    requires !HeldBySomebody(site, role) && HeldBySomebody(Do(site, step), role)
    ensures EditsAsAdmin(site, step)
  {
    var p :| p in Do(site, step).rows && role in AccountRoles(Do(site, step).rows[p]);
    GuardedRoleMovesOnlyByHolders(site, step, p, role);
    assert step.actor.Person? && role in EffectiveRoles(site, step.actor) ==> HeldBySomebody(site, role);
  }

  /**
   A guarded role nobody held at the start of a run is held at its end only when a system
   administrator, or a command, edited roles on the way.
   */
  lemma {:induction false} GuardedRolesAreConfined(site: Site, events: seq<Event>, role: Role)
    requires Inv(site) && role in GUARDED_ROLES
    requires !HeldBySomebody(site, role) && HeldBySomebody(Run(site, events), role)
    ensures AdminEditsDuring(site, events)
    decreases |events|
  {
    if events != [] {
      var ticked := Tick(site, events[0].wait);
      TickKeepsInv(site, events[0].wait);
      Address.DoKeepsInv(ticked, events[0].step);
      if HeldBySomebody(Apply(site, events[0]), role) {
        assert !HeldBySomebody(ticked, role) by { assert ticked.rows == site.rows; }
        StepConfinesRole(ticked, events[0].step, role);
      } else {
        GuardedRolesAreConfined(Apply(site, events[0]), events[1..], role);
      }
    }
  }

  predicate ByAccounts(events: seq<Event>) {
    forall e :: e in events && EditsRoles(e.step) ==> e.step.actor.Person?
  }

  /** With no system administrator, what accounts do never gives anybody a guarded role anew. */
  lemma {:induction false} WithoutAdminsRolesOnlyShrink(site: Site, events: seq<Event>, role: Role)
    requires Inv(site) && role in GUARDED_ROLES && ByAccounts(events)
    requires !HeldBySomebody(site, SystemAdmin)
    ensures HeldBySomebody(Run(site, events), role) ==> HeldBySomebody(site, role)
    ensures !HeldBySomebody(Run(site, events), SystemAdmin)
  {
    NoAdminEdits(site, events);
    if HeldBySomebody(Run(site, events), role) && !HeldBySomebody(site, role) {
      GuardedRolesAreConfined(site, events, role);
    }
    if HeldBySomebody(Run(site, events), SystemAdmin) {
      GuardedRolesAreConfined(site, events, SystemAdmin);
    }
  }

  lemma {:induction false} NoAdminEdits(site: Site, events: seq<Event>)
    requires Inv(site) && ByAccounts(events) && !HeldBySomebody(site, SystemAdmin)
    ensures !AdminEditsDuring(site, events)
    decreases |events|
  {
    if events != [] {
      var ticked := Tick(site, events[0].wait);
      var step := events[0].step;
      TickKeepsInv(site, events[0].wait);
      Address.DoKeepsInv(ticked, step);
      assert !HeldBySomebody(ticked, SystemAdmin) by { assert ticked.rows == site.rows; }
      assert EditsRoles(step) ==> step.actor.Person? by { assert events[0] in events; }
      assert !EditsAsAdmin(ticked, step);
      if HeldBySomebody(Apply(site, events[0]), SystemAdmin) {
        StepConfinesRole(ticked, step, SystemAdmin);
      }
      NoAdminEdits(Apply(site, events[0]), events[1..]);
    }
  }

  // ------------------------------------------------- an administrator is left

  predicate IsActiveAdmin(user: Account) {
    user.isActive && SystemAdmin in AccountRoles(user)
  }

  ghost predicate AdminLeft(site: Site) {
    exists p :: p in site.rows && IsActiveAdmin(site.rows[p])
  }

  predicate IsActive(site: Site, p: Pk) { p in site.rows && site.rows[p].isActive }

  /** A step nobody inactive and no command takes, and not an undo that has to close an account. */
  predicate Ordinary(site: Site, step: Step) {
    match step
    case Edit(actor, _, _, _) => actor.Person? && IsActive(site, actor.pk)
    case MarkVerifier(actor, _, _) => actor.Person? && IsActive(site, actor.pk)
    case Deactivate(admin, _) => IsActive(site, admin)
    case Undo(link) => var outcome := UndoChange(site, link).outcome; !(outcome.Undone? && outcome.taken)
    case _ => true
  }

  ghost predicate OrdinaryRun(site: Site, events: seq<Event>)
    decreases |events|
  {
    events != [] ==>
      Ordinary(Tick(site, events[0].wait), events[0].step) && OrdinaryRun(Apply(site, events[0]), events[1..])
  }

  /** An active administrator stays one, unless another active one edits or deactivates it. */
  lemma AdminStaysOrAnotherActs(site: Site, step: Step, p: Pk)
    requires Inv(site) && p in site.rows && IsActiveAdmin(site.rows[p]) && Ordinary(site, step)
    ensures p in Do(site, step).rows
    ensures
      || IsActiveAdmin(Do(site, step).rows[p])
      || exists q :: q != p && q in site.rows && q in Do(site, step).rows
                     && IsActiveAdmin(site.rows[q]) && Do(site, step).rows[q] == site.rows[q]
  {
    var after := Do(site, step);
    if Subject(step) != Some(p) {
      Steps.OthersUntouched(site, step, p);
    } else if EditsRoles(step) {
      EditKeepsActive(site, step);
      if SystemAdmin !in AccountRoles(after.rows[p]) {
        GuardedRoleMovesOnlyByHolders(site, step, p, SystemAdmin);
        Steps.OthersUntouched(site, step, step.actor.pk);
      }
    } else {
      StepMovesNoRole(site, step, p);
      OtherStepsKeepAdminsActive(site, step, p);
      if !after.rows[p].isActive {
        Steps.OthersUntouched(site, step, step.admin);
        DeactivatorIsAdmin(site, step.admin, p);
      }
    }
  }

  lemma EditKeepsActive(site: Site, step: Step)
    requires EditsRoles(step) && step.p in site.rows
    ensures step.p in Do(site, step).rows && Do(site, step).rows[step.p].isActive == site.rows[step.p].isActive
  {
  }

  lemma DeactivatorIsAdmin(site: Site, admin: Pk, p: Pk)
    requires p in site.rows && SystemAdmin in AccountRoles(site.rows[p]) && admin in site.rows
    requires Status.Deactivate(site, admin, p).outcome.Changed?
    ensures admin != p && SystemAdmin in AccountRoles(site.rows[admin])
  {
    var lacking := (AccountRoles(site.rows[p]) - EffectiveRoles(site, Person(admin))) * GUARDED_ROLES;
    assert SystemAdmin !in EffectiveRoles(site, Person(admin)) ==> SystemAdmin in lacking;
  }

  /** Of the other ordinary steps, only another administrator's makes an active one inactive. */
  lemma OtherStepsKeepAdminsActive(site: Site, step: Step, p: Pk)
    requires !EditsRoles(step) && Subject(step) == Some(p) && p in site.rows
    requires IsActiveAdmin(site.rows[p]) && Ordinary(site, step)
    ensures p in Do(site, step).rows
    ensures Do(site, step).rows[p].isActive || (step.Deactivate? && Status.Deactivate(site, step.admin, p).outcome.Changed?)
  {
    if IsStatusStep(step) {
      FlagStepsMoveNoRole(site, step);
    } else {
      match step
      case Complete(link) => LinksMoveNoRole(site, link, UndoLink(p, "", "", 0));
      case Undo(link) => LinksMoveNoRole(site, ChangeLink(p, "", "", None, 0, 0), link);
      case _ => Steps.StepIsGentle(site, step, p);
    }
  }

  /** Every ordinary run that starts with an active system administrator ends with one. */
  lemma {:induction false} AnAdminIsAlwaysLeft(site: Site, events: seq<Event>)
    requires Inv(site) && AdminLeft(site) && OrdinaryRun(site, events)
    ensures AdminLeft(Run(site, events))
    decreases |events|
  {
    if events != [] {
      var ticked := Tick(site, events[0].wait);
      TickKeepsInv(site, events[0].wait);
      Address.DoKeepsInv(ticked, events[0].step);
      var p :| p in site.rows && IsActiveAdmin(site.rows[p]);
      AdminStaysOrAnotherActs(ticked, events[0].step, p);
      AnAdminIsAlwaysLeft(Apply(site, events[0]), events[1..]);
    }
  }

  /** An undo that has to close its account leaves an administrator exactly when another is active. */
  lemma ClosingLeavesAnAdminIff(site: Site, link: UndoLink)
    requires UndoChange(site, link).outcome.Undone? && UndoChange(site, link).outcome.taken
    ensures AdminLeft(UndoChange(site, link).site) <==>
            exists q :: q in site.rows && q != link.user && IsActiveAdmin(site.rows[q])
  {
    var after := UndoChange(site, link).site;
    if q :| q in site.rows && q != link.user && IsActiveAdmin(site.rows[q]) {
      assert after.rows[q] == site.rows[q];
    }
  }
}
