/** What closing, blocking, and clearing a pending change are for, over every run. */
module StatusLaws {
  import opened Outcomes
  import opened Accounts
  import opened EmailChange
  import opened AccountRuns
  import opened MailedLinks
  import Status = AccountStatus
  import Address = AddressLaws
  import Marks = MarkLaws
  import Roles = RoleLaws
  import Steps = RecoveryLaws

  // ------------------------------------------------ an address nobody asked for

  /** The steps that ask for another address for `p`, and the links that undo a change of it. */
  predicate AsksOrUndoes(step: Step, p: Pk) {
    match step
    case AskOwn(q, _) => q == p
    case AskFor(_, q, _) => q == p
    case Undo(link) => link.user == p
    case _ => false
  }

  /** `p` signs in with `email`, and no other address is pending. */
  ghost predicate Settled(site: Site, p: Pk, email: string) {
    p in site.rows && site.rows[p].email == email && site.rows[p].pendingEmail == ""
  }

  lemma CompletingNeedsAPending(site: Site, link: ChangeLink)
    requires Inv(site) && link.user in site.rows && site.rows[link.user].pendingEmail == ""
    ensures CompleteChange(site, link).site == site
  {
    assert NormalizedEmail("") == "";
  }

  /** `user` is `was` with the flags as they were, the same address, and no other address pending than before. */
  ghost predicate StaysPut(was: Account, user: Account) {
    && user.email == was.email && (user.pendingEmail == was.pendingEmail || user.pendingEmail == "")
    && user.isActive == was.isActive && user.reactivationBlocked == was.reactivationBlocked
  }

  lemma PasswordStepsStayPut(site: Site, p: Pk, seen: nat)
    requires p in site.rows
    ensures StaysPut(site.rows[p], ReplacePassword(site, p, seen).site.rows[p])
    ensures StaysPut(site.rows[p], ClearPassword(site, p).rows[p])
    ensures StaysPut(site.rows[p], PasswordNotice(site, p).rows[p])
  {
  }

  lemma MailStepsStayPut(site: Site, p: Pk, requestedBy: Option<Pk>, upgrade: Option<PersonKind>, invitation: bool)
    requires p in site.rows
    ensures StaysPut(site.rows[p], SendChangeLink(site, p, requestedBy).rows[p])
    ensures StaysPut(site.rows[p], SendVerification(site, p, upgrade).rows[p])
    ensures StaysPut(site.rows[p], SendPasswordLink(site, p, invitation).rows[p])
  {
  }

  lemma VerifyStaysPut(site: Site, link: VerifyLink, withPassword: bool)
    requires link.user in site.rows
    ensures
      var after := VerifyEmail(site, link, withPassword).site;
      link.user in after.rows && StaysPut(site.rows[link.user], after.rows[link.user])
  {
  }

  lemma ResetStaysPut(site: Site, link: ResetLink)
    requires link.user in site.rows
    ensures
      var was, after := site.rows[link.user], ConfirmReset(site, link).site;
      && link.user in after.rows
      && (was.isActive || was.reactivationBlocked ==> StaysPut(was, after.rows[link.user]))
      && after.rows[link.user].email == was.email
      && (after.rows[link.user].pendingEmail == was.pendingEmail || after.rows[link.user].pendingEmail == "")
  {
    if ConfirmReset(site, link).outcome.PasswordChosen? {
      Steps.ResetRows(site, link);
    }
  }

  lemma StepStaysPut(site: Site, step: Step, p: Pk)
    requires Subject(step) == Some(p) && p in site.rows
    requires !IsStatusStep(step) && !step.Complete? && !AsksOrUndoes(step, p)
    requires step.Reset? ==> site.rows[p].isActive || site.rows[p].reactivationBlocked
    ensures p in Do(site, step).rows && StaysPut(site.rows[p], Do(site, step).rows[p])
  {
    match step
    case Resend(q, requestedBy) => MailStepsStayPut(site, q, requestedBy, None, false);
    case NewPassword(q, seen) => PasswordStepsStayPut(site, q, seen);
    case RequirePassword(q) => PasswordStepsStayPut(site, q, 0);
    case TellPasswordChanged(q) => PasswordStepsStayPut(site, q, 0);
    case MailVerification(q, upgrade) => MailStepsStayPut(site, q, None, upgrade, false);
    case MailPasswordLink(q, invitation) => MailStepsStayPut(site, q, None, None, invitation);
    case Verify(link, withPassword) => VerifyStaysPut(site, link, withPassword);
    case Reset(link) => ResetStaysPut(site, link);
  }

  /** The same address, nothing more pending, and still closed when it was. */
  ghost predicate StaysClosed(was: Account, user: Account, unblocked: bool) {
    && user.email == was.email && (user.pendingEmail == was.pendingEmail || user.pendingEmail == "")
    && (IsClosed(was) && !unblocked ==> IsClosed(user))
  }

  lemma EditStaysClosed(site: Site, actor: Actor, p: Pk, roles: Option<set<Role>>, kind: Option<PersonKind>)
    requires p in site.rows
    ensures p in Status.UpdateAccount(site, actor, p, roles, kind).site.rows
    ensures StaysClosed(site.rows[p], Status.UpdateAccount(site, actor, p, roles, kind).site.rows[p], false)
  {
  }

  /** A status step leaves the address, and opens a closed and blocked account for nobody but who may unblock it. */
  lemma StatusStepLeavesAddress(site: Site, step: Step)
    requires IsStatusStep(step) && step.p in site.rows
    ensures step.p in DoStatus(site, step).rows
    ensures StaysClosed(site.rows[step.p], DoStatus(site, step).rows[step.p], Unblocks(site, step, step.p))
  {
    if step.Edit? {
      EditStaysClosed(site, step.actor, step.p, step.roles, step.kind);
    } else if step.MarkVerifier? {
      var held := site.rows[step.p].roles - {Verifier};
      EditStaysClosed(site, step.actor, step.p, Some(if step.wanted then held + {Verifier} else held), None);
    }
  }

  lemma StepKeepsSettled(site: Site, step: Step, p: Pk, email: string)
    requires Inv(site) && Settled(site, p, email) && !AsksOrUndoes(step, p)
    ensures Settled(Do(site, step), p, email)
  {
    if Subject(step) != Some(p) {
      Steps.OthersUntouched(site, step, p);
    } else if step.Complete? {
      CompletingNeedsAPending(site, step.change);
    } else if IsStatusStep(step) {
      StatusStepLeavesAddress(site, step);
    } else if step.Reset? {
      ResetStaysPut(site, step.reset);
    } else {
      StepStaysPut(site, step, p);
    }
  }

  /** No run moves an account's address until somebody asks for another, or undoes a change. */
  lemma {:induction false} AddressMovesOnlyWhenAsked(site: Site, events: seq<Event>, p: Pk, email: string)
    requires Inv(site) && Settled(site, p, email)
    requires forall i :: 0 <= i < |events| ==> !AsksOrUndoes(events[i].step, p)
    ensures Settled(Run(site, events), p, email)
    decreases |events|
  {
    if events != [] {
      var ticked := Tick(site, events[0].wait);
      TickKeepsInv(site, events[0].wait);
      Address.DoKeepsInv(ticked, events[0].step);
      StepKeepsSettled(ticked, events[0].step, p, email);
      AddressMovesOnlyWhenAsked(Apply(site, events[0]), events[1..], p, email);
    }
  }

  /** The steps that put an end to a change under way: closing the account, or another password. */
  ghost predicate EndsPendingChange(site: Site, step: Step, p: Pk) {
    && p in site.rows
    && match step
       case LeaveOwn(q) => q == p && Status.DeactivateOwn(site, p).outcome == Status.Changed
       case Deactivate(admin, q) => q == p && Status.Deactivate(site, admin, p).outcome == Status.Changed
       case NewPassword(q, seen) => q == p && ReplacePassword(site, p, seen).outcome
       case RequirePassword(q) => q == p
       case _ => false
  }

  lemma EndedChangeIsSettled(site: Site, step: Step, p: Pk)
    requires EndsPendingChange(site, step, p)
    ensures Settled(Do(site, step), p, site.rows[p].email)
  {
    match step
    case LeaveOwn(q) => assert Do(site, step) == Status.DeactivateOwn(site, p).site;
    case Deactivate(admin, q) => assert Do(site, step) == Status.Deactivate(site, admin, p).site;
    case NewPassword(q, seen) => assert Do(site, step) == ReplacePassword(site, p, seen).site;
    case RequirePassword(q) => assert Do(site, step) == ClearPassword(site, p);
  }

  /**
   Once an account is closed, or has another password, its address stays, whether the account is opened
   again or not, until somebody asks for another or undoes a change.
   */
  lemma EndedChangeStaysEnded(site: Site, step: Step, events: seq<Event>, p: Pk)
    requires Inv(site) && UndonesPast(site) && EndsPendingChange(site, step, p)
    requires forall i :: 0 <= i < |events| ==> !AsksOrUndoes(events[i].step, p)
    ensures p in Run(Do(site, step), events).rows
    ensures Run(Do(site, step), events).rows[p].email == site.rows[p].email
  {
    Address.DoKeepsInv(site, step);
    EndedChangeIsSettled(site, step, p);
    AddressMovesOnlyWhenAsked(Do(site, step), events, p, site.rows[p].email);
  }

  // ------------------------------------------- a link older than the closing

  /** `step` asks for `p` to move to the address `key`, lowered and stripped. */
  predicate AsksFor(step: Step, p: Pk, key: string) {
    match step
    case AskOwn(q, email) => q == p && NormalizedEmail(email) == key
    case AskFor(_, q, email) => q == p && NormalizedEmail(email) == key
    case _ => false
  }

  predicate AskedDuring(events: seq<Event>, p: Pk, key: string) {
    exists i :: 0 <= i < |events| && AsksFor(events[i].step, p, key)
  }

  /** The address pending for `p`, if any, is not `key`. */
  ghost predicate PendingElsewhere(site: Site, p: Pk, key: string) {
    p in site.rows && NormalizedEmail(site.rows[p].pendingEmail) != key
  }

  /** No address is pending that was not before. */
  ghost predicate PendingDrops(was: Account, user: Account) {
    user.pendingEmail == was.pendingEmail || user.pendingEmail == ""
  }

  lemma LinksDropPending(site: Site, change: ChangeLink, undo: UndoLink)
    ensures change.user in site.rows ==>
      var after := CompleteChange(site, change).site;
      change.user in after.rows && PendingDrops(site.rows[change.user], after.rows[change.user])
    ensures undo.user in site.rows ==>
      var after := UndoChange(site, undo).site;
      undo.user in after.rows && PendingDrops(site.rows[undo.user], after.rows[undo.user])
  {
  }

  lemma RequestSetsPending(site: Site, actor: Actor, p: Pk, email: string, quiet: bool)
    requires p in site.rows
    ensures
      var after := RequestChange(site, actor, p, email, quiet).site;
      && p in after.rows
      && (PendingDrops(site.rows[p], after.rows[p])
          || NormalizedEmail(after.rows[p].pendingEmail) == NormalizedEmail(email))
  {
    Steps.RequestRows(site, actor, p, email, quiet);
    Steps.NormalizedOfStripped(email);
  }

  /** A step drops the pending address, leaves it, or asks for the one that is pending then. */
  lemma StepDropsPending(site: Site, step: Step, p: Pk)
    requires Inv(site) && p in site.rows
    ensures p in Do(site, step).rows
    ensures
      || PendingDrops(site.rows[p], Do(site, step).rows[p])
      || AsksFor(step, p, NormalizedEmail(Do(site, step).rows[p].pendingEmail))
  {
    if Subject(step) != Some(p) {
      Steps.OthersUntouched(site, step, p);
    } else if IsStatusStep(step) {
      StatusStepLeavesAddress(site, step);
    } else {
      match step
      case Complete(link) => LinksDropPending(site, link, UndoLink(p, "", "", 0));
      case Undo(link) => LinksDropPending(site, ChangeLink(p, "", "", None, 0, 0), link);
      case AskOwn(_, email) => RequestSetsPending(site, Person(p), p, email, true);
      case AskFor(actor, _, email) => RequestSetsPending(site, actor, p, email, false);
      case Reset(link) => ResetStaysPut(site, link);
      case _ => StepStaysPut(site, step, p);
    }
  }

  lemma StepKeepsPendingElsewhere(site: Site, step: Step, p: Pk, key: string)
    requires Inv(site) && key != "" && PendingElsewhere(site, p, key) && !AsksFor(step, p, key)
    ensures PendingElsewhere(Do(site, step), p, key)
  {
    assert NormalizedEmail("") == "";
    StepDropsPending(site, step, p);
  }

  lemma {:induction false} PendingElsewhereUnlessAsked(site: Site, events: seq<Event>, p: Pk, key: string)
    requires Inv(site) && key != "" && PendingElsewhere(site, p, key) && !AskedDuring(events, p, key)
    ensures PendingElsewhere(Run(site, events), p, key)
    decreases |events|
  {
    if events != [] {
      var ticked := Tick(site, events[0].wait);
      TickKeepsInv(site, events[0].wait);
      Address.DoKeepsInv(ticked, events[0].step);
      StepKeepsPendingElsewhere(ticked, events[0].step, p, key);
      assert forall i :: 0 <= i < |events[1..]| ==> events[1..][i] == events[i + 1];
      PendingElsewhereUnlessAsked(Apply(site, events[0]), events[1..], p, key);
    }
  }

  /** `step` closes `p`, which keeps its password. */
  ghost predicate Closes(site: Site, step: Step, p: Pk) {
    EndsPendingChange(site, step, p) && (step.LeaveOwn? || step.Deactivate?)
  }

  /** The link `link` was signed over what `user` is now. */
  predicate Fits(user: Account, link: ChangeLink) {
    link.email == NormalizedEmail(user.email) && link.hash == user.password.hash
  }

  /**
   A change link signed before its account was closed completes later exactly when it has not lapsed, the
   account is open with the address and the password it had, the same address is pending again, and that
   address is free.  Then somebody has asked for it again since.
   */
  lemma ClosedLinkCompletesIff(site: Site, step: Step, events: seq<Event>, link: ChangeLink)
    requires Inv(site) && UndonesPast(site) && Closes(site, step, link.user)
    requires link in site.changeLinks && Fits(site.rows[link.user], link)
    ensures
      var later := Run(Do(site, step), events);
      && link.user in later.rows
      && var user := later.rows[link.user];
         && (CompleteChange(later, link).outcome == Moved <==>
               && !Lapsed(link.at, later.verificationTimeout, later.now) && user.isActive
               && NormalizedEmail(user.email) == NormalizedEmail(site.rows[link.user].email)
               && user.password.hash == site.rows[link.user].password.hash
               && NormalizedEmail(user.pendingEmail) == link.changeTo
               && !AddressTaken(later, user.pendingEmail, Some(link.user)))
         && (CompleteChange(later, link).outcome == Moved ==> AskedDuring(events, link.user, link.changeTo))
  {
    var p, closed := link.user, Do(site, step);
    Address.DoKeepsInv(site, step);
    EndedChangeIsSettled(site, step, p);
    Marks.StepGrowsLinks(site, step);
    Marks.RunGrowsLinks(closed, events);
    Steps.RunMovesOn(closed, events, p);
    assert NormalizedEmail("") == "";
    if !AskedDuring(events, p, link.changeTo) {
      PendingElsewhereUnlessAsked(closed, events, p, link.changeTo);
    }
  }

  // ------------------------------------------------------ closing, and opening again

  /** The site with the change pending for `p` dropped. */
  function Dropped(site: Site, p: Pk): Site
    requires p in site.rows
  {
    site.(rows := site.rows[p := site.rows[p].(pendingEmail := "")])
  }

  lemma SameRolesMayEdit(site: Site, after: Site, actor: Actor, p: Pk)
    requires p in site.rows && p in after.rows && after.rows == site.rows[p := after.rows[p]]
    requires AccountRoles(after.rows[p]) == AccountRoles(site.rows[p])
    ensures MayEditProtected(after, actor, after.rows[p]) == MayEditProtected(site, actor, site.rows[p])
  {
    assert EffectiveRoles(after, actor) == EffectiveRoles(site, actor);
  }

  /**
   Who closed an account opens it again as it was, but for a pending change, exactly while it is not blocked; and
   the administrator who may close it may do so while it is open.
   */
  lemma ClosedOpensAgain(site: Site, admin: Pk, p: Pk)
    requires p in site.rows
    ensures Status.Deactivate(site, admin, p).outcome == Status.Changed <==>
      !IsDonor(site.rows[p]) && admin != p && MayEditProtected(site, Person(admin), site.rows[p]) && site.rows[p].isActive
    ensures Status.Deactivate(site, admin, p).outcome == Status.Changed ==>
      var closed := Status.Deactivate(site, admin, p).site;
      && p in closed.rows && !closed.rows[p].isActive
      && Status.Reactivate(closed, admin, p)
          == (if site.rows[p].reactivationBlocked then Reply(Status.Blocked, closed) else Reply(Status.Changed, Dropped(site, p)))
      && Status.ReactivateOwn(closed, p)
          == (if site.rows[p].reactivationBlocked then Reply(Status.Blocked, closed) else Reply(Status.Changed, Dropped(site, p)))
  {
    if Status.Deactivate(site, admin, p).outcome == Status.Changed {
      var closed := Status.Deactivate(site, admin, p).site;
      SameRolesMayEdit(site, closed, Person(admin), p);
      assert closed.rows[p].(isActive := true) == site.rows[p].(pendingEmail := "");
      assert closed.rows[p := site.rows[p].(pendingEmail := "")] == Dropped(site, p).rows;
    }
  }

  /** An account is opened by those who may close it, exactly while it is closed and not blocked; nothing else changes. */
  lemma OpensIff(site: Site, admin: Pk, p: Pk)
    requires p in site.rows
    ensures
      var was := site.rows[p];
      var reply := Status.Reactivate(site, admin, p);
      && (reply.outcome == Status.Changed <==>
            !IsDonor(was) && MayEditProtected(site, Person(admin), was) && !was.reactivationBlocked && !was.isActive)
      && (reply.outcome == Status.Blocked <==>
            !IsDonor(was) && MayEditProtected(site, Person(admin), was) && was.reactivationBlocked)
      && reply.site == if reply.outcome == Status.Changed then site.(rows := site.rows[p := was.(isActive := true)]) else site
    ensures
      var was := site.rows[p];
      Status.ReactivateOwn(site, p) ==
        if was.reactivationBlocked then Reply(Status.Blocked, site)
        else Reply(Status.Changed, site.(rows := site.rows[p := was.(isActive := true)]))
  {
  }

  /** Who closed their own account opens it again as it was, but for a pending change, unless it is blocked. */
  lemma LeftOpensAgain(site: Site, p: Pk)
    requires p in site.rows && site.rows[p].isActive
    ensures Status.DeactivateOwn(site, p).outcome == Status.Changed <==>
      !IsDonor(site.rows[p]) && SystemAdmin !in AccountRoles(site.rows[p])
    ensures Status.DeactivateOwn(site, p).outcome == Status.Changed ==>
      var left := Status.DeactivateOwn(site, p).site;
      && p in left.rows && !left.rows[p].isActive
      && Status.ReactivateOwn(left, p)
          == (if site.rows[p].reactivationBlocked then Reply(Status.Blocked, left) else Reply(Status.Changed, Dropped(site, p)))
  {
    if Status.DeactivateOwn(site, p).outcome == Status.Changed {
      var left := Status.DeactivateOwn(site, p).site;
      assert left.rows[p].(isActive := true) == site.rows[p].(pendingEmail := "");
      assert left.rows[p := site.rows[p].(pendingEmail := "")] == Dropped(site, p).rows;
    }
  }

  /** Blocking and unblocking, in either order, leaves the site as it was. */
  lemma BlockedUnblocks(site: Site, admin: Pk, p: Pk, blocked: bool)
    requires p in site.rows
    ensures Status.SetReactivationBlocked(site, admin, p, blocked).outcome == Status.Changed <==>
      && !IsDonor(site.rows[p]) && admin != p && MayEditProtected(site, Person(admin), site.rows[p])
      && site.rows[p].reactivationBlocked != blocked
    ensures Status.SetReactivationBlocked(site, admin, p, blocked).outcome == Status.Changed ==>
      var moved := Status.SetReactivationBlocked(site, admin, p, blocked).site;
      && p in moved.rows && moved.rows[p].reactivationBlocked == blocked
      && Status.SetReactivationBlocked(moved, admin, p, !blocked) == Reply(Status.Changed, site)
  {
    if Status.SetReactivationBlocked(site, admin, p, blocked).outcome == Status.Changed {
      var moved := Status.SetReactivationBlocked(site, admin, p, blocked).site;
      SameRolesMayEdit(site, moved, Person(admin), p);
      assert moved.rows[p].(reactivationBlocked := !blocked) == site.rows[p];
      assert moved.rows[p := site.rows[p]] == site.rows;
    }
  }

  // ------------------------------------------------------------------ closed accounts

  predicate IsClosed(user: Account) { !user.isActive && user.reactivationBlocked }

  /** Another account, holding every guarded role `p` holds or a system administrator, unblocks `p`. */
  predicate Unblocks(site: Site, step: Step, p: Pk) {
    && p in site.rows
    && step.Block? && step.p == p && !step.blocked && step.admin != p
    && MayEditProtected(site, Person(step.admin), site.rows[p])
  }

  lemma LinksLeaveClosed(site: Site, p: Pk, change: ChangeLink, undo: UndoLink)
    requires p in site.rows && IsClosed(site.rows[p])
    ensures change.user == p ==>
      p in CompleteChange(site, change).site.rows && IsClosed(CompleteChange(site, change).site.rows[p])
    ensures undo.user == p ==> p in UndoChange(site, undo).site.rows && IsClosed(UndoChange(site, undo).site.rows[p])
  {
  }

  lemma RequestLeavesClosed(site: Site, p: Pk, actor: Actor, email: string, quiet: bool)
    requires p in site.rows && IsClosed(site.rows[p])
    ensures
      var after := RequestChange(site, actor, p, email, quiet).site;
      p in after.rows && IsClosed(after.rows[p])
  {
    Steps.RequestRows(site, actor, p, email, quiet);
  }

  lemma StepKeepsClosed(site: Site, step: Step, p: Pk)
    requires Inv(site) && p in site.rows && IsClosed(site.rows[p]) && !Unblocks(site, step, p)
    ensures p in Do(site, step).rows && IsClosed(Do(site, step).rows[p])
  {
    var change, undo := ChangeLink(p, "", "", None, 0, 0), UndoLink(p, "", "", 0);
    if Subject(step) != Some(p) {
      Steps.OthersUntouched(site, step, p);
    } else if IsStatusStep(step) {
      StatusStepLeavesAddress(site, step);
      assert Do(site, step) == DoStatus(site, step);
    } else if step.Complete? {
      LinksLeaveClosed(site, p, step.change, undo);
      assert Do(site, step) == CompleteChange(site, step.change).site;
    } else if step.Undo? {
      LinksLeaveClosed(site, p, change, step.undo);
      assert Do(site, step) == UndoChange(site, step.undo).site;
    } else if step.AskOwn? {
      RequestLeavesClosed(site, p, Person(p), step.email, true);
    } else if step.AskFor? {
      RequestLeavesClosed(site, p, step.actor, step.email, false);
      assert Do(site, step) == RequestChange(site, step.actor, p, step.email, false).site;
    } else {
      StepStaysPut(site, step, p);
    }
  }

  ghost predicate UnblockedDuring(site: Site, events: seq<Event>, p: Pk)
    decreases |events|
  {
    events != [] &&
    (Unblocks(Tick(site, events[0].wait), events[0].step, p) || UnblockedDuring(Apply(site, events[0]), events[1..], p))
  }

  /** A closed and blocked account stays closed until an account allowed to unblocks it, never its owner. */
  lemma {:induction false} BlockedStaysClosed(site: Site, events: seq<Event>, p: Pk)
    requires Inv(site) && p in site.rows && IsClosed(site.rows[p])
    ensures UnblockedDuring(site, events, p) || (p in Run(site, events).rows && IsClosed(Run(site, events).rows[p]))
    decreases |events|
  {
    if events != [] {
      var ticked := Tick(site, events[0].wait);
      TickKeepsInv(site, events[0].wait);
      Address.DoKeepsInv(ticked, events[0].step);
      if !Unblocks(ticked, events[0].step, p) {
        StepKeepsClosed(ticked, events[0].step, p);
        BlockedStaysClosed(Apply(site, events[0]), events[1..], p);
      }
    }
  }

  /** An undo whose address went elsewhere closes and blocks the account, so only an administrator opens it. */
  lemma TakenUndoCloses(site: Site, link: UndoLink, events: seq<Event>)
    requires Inv(site) && UndonesPast(site)
    requires UndoChange(site, link).outcome.Undone? && UndoChange(site, link).outcome.taken
    ensures
      var after := UndoChange(site, link).site;
      && link.user in after.rows && after.rows[link.user].email == site.rows[link.user].email
      && (UnblockedDuring(after, events, link.user)
          || (link.user in Run(after, events).rows && IsClosed(Run(after, events).rows[link.user])))
  {
    Address.UndoKeepsInv(site, link);
    BlockedStaysClosed(UndoChange(site, link).site, events, link.user);
  }

  // ------------------------------------------------------- who may touch an account

  lemma AskingNeedsPermission(site: Site, actor: Actor, p: Pk, email: string, quiet: bool)
    requires p in site.rows
    ensures
      var was, after := site.rows[p], RequestChange(site, actor, p, email, quiet).site;
      && p in after.rows
      && (after.rows[p].pendingEmail != was.pendingEmail || after.rows[p].email != was.email ==>
            MayEditProtected(site, actor, was))
      && after.rows[p].isActive == was.isActive && after.rows[p].reactivationBlocked == was.reactivationBlocked
  {
    Steps.RequestRows(site, actor, p, email, quiet);
  }

  /** Who takes a step, for the steps somebody takes on an account. */
  function TakenBy(step: Step): Option<Actor> {
    match step
    case AskOwn(p, _) => Some(Person(p))
    case AskFor(actor, _, _) => Some(actor)
    case Edit(actor, _, _, _) => Some(actor)
    case MarkVerifier(actor, _, _) => Some(actor)
    case LeaveOwn(p) => Some(Person(p))
    case ReturnOwn(p) => Some(Person(p))
    case Deactivate(admin, _) => Some(Person(admin))
    case Reactivate(admin, _) => Some(Person(admin))
    case Block(admin, _, _) => Some(Person(admin))
    case _ => None
  }

  /** The address asked for, the address, and the flags that open and close an account are as they were. */
  ghost predicate Untouched(was: Account, user: Account) {
    && user.email == was.email && (user.pendingEmail == was.pendingEmail || user.pendingEmail == "")
    && user.isActive == was.isActive && user.reactivationBlocked == was.reactivationBlocked
  }

  /** `step` follows a link mailed for `p` that may move or open the account. */
  predicate FollowsLinkFor(step: Step, p: Pk) {
    Subject(step) == Some(p) && (step.Complete? || step.Undo? || step.Reset?)
  }

  lemma EditsLeaveTouch(site: Site, step: Step)
    requires step.Edit? || step.MarkVerifier?
    requires step.p in site.rows
    ensures step.p in DoStatus(site, step).rows && Untouched(site.rows[step.p], DoStatus(site, step).rows[step.p])
  {
  }

  lemma FlagsNeedPermission(site: Site, step: Step)
    requires step.Deactivate? || step.Reactivate? || step.Block?
    requires step.p in site.rows
    ensures step.p in DoStatus(site, step).rows
    ensures
      || Untouched(site.rows[step.p], DoStatus(site, step).rows[step.p])
      || MayEditProtected(site, Person(step.admin), site.rows[step.p])
  {
  }

  /**
   A step touches an account only when the account itself takes it, or somebody who holds its guarded
   roles or is a system administrator, or when it follows a link mailed for it.
   */
  lemma OnlyThoseAllowedTouch(site: Site, step: Step, p: Pk)
    requires Inv(site) && p in site.rows && !FollowsLinkFor(step, p) && TakenBy(step) != Some(Person(p))
    ensures p in Do(site, step).rows
    ensures
      || Untouched(site.rows[p], Do(site, step).rows[p])
      || (Subject(step) == Some(p) && TakenBy(step).Some? && MayEditProtected(site, TakenBy(step).value, site.rows[p]))
  {
    if Subject(step) != Some(p) {
      Steps.OthersUntouched(site, step, p);
    } else if step.Edit? || step.MarkVerifier? {
      EditsLeaveTouch(site, step);
      assert Do(site, step) == DoStatus(site, step);
    } else if step.Deactivate? || step.Reactivate? || step.Block? {
      FlagsNeedPermission(site, step);
      assert Do(site, step) == DoStatus(site, step);
    } else if step.AskFor? {
      AskingNeedsPermission(site, step.actor, p, step.email, false);
      assert Do(site, step) == RequestChange(site, step.actor, p, step.email, false).site;
    } else {
      StepStaysPut(site, step, p);
    }
  }

  /** `p` holds `role`, and nobody else holds it or is a system administrator. */
  ghost predicate SoleHolder(site: Site, p: Pk, role: Role) {
    && p in site.rows && role in AccountRoles(site.rows[p])
    && forall q :: q in site.rows && q != p ==>
         role !in AccountRoles(site.rows[q]) && SystemAdmin !in AccountRoles(site.rows[q])
  }

  /** Accounts other than `p` take the steps, and no link mailed for `p` is followed. */
  predicate ByOthers(step: Step, p: Pk) {
    && !FollowsLinkFor(step, p)
    && (TakenBy(step).Some? ==> TakenBy(step).value.Person? && TakenBy(step).value != Person(p))
  }

  lemma OthersHoldNothing(site: Site, p: Pk, role: Role, actor: Actor)
    requires SoleHolder(site, p, role) && role in GUARDED_ROLES && actor.Person? && actor != Person(p)
    ensures role !in EffectiveRoles(site, actor) && SystemAdmin !in EffectiveRoles(site, actor)
    ensures !MayEditProtected(site, actor, site.rows[p])
  {
    assert SystemAdmin !in EffectiveRoles(site, actor) && role !in EffectiveRoles(site, actor);
    assert role in (AccountRoles(site.rows[p]) - EffectiveRoles(site, actor)) * GUARDED_ROLES;
  }

  lemma RoleStands(site: Site, step: Step, p: Pk, role: Role, q: Pk, moved: Role)
    requires Inv(site) && role in GUARDED_ROLES && SoleHolder(site, p, role) && ByOthers(step, p)
    requires moved == role || (moved == SystemAdmin && q != p)
    requires q in Do(site, step).rows
    ensures (q in site.rows && moved in AccountRoles(site.rows[q])) == (moved in AccountRoles(Do(site, step).rows[q]))
  {
    if (q in site.rows && moved in AccountRoles(site.rows[q])) != (moved in AccountRoles(Do(site, step).rows[q])) {
      Roles.GuardedRoleMovesOnlyByHolders(site, step, q, moved);
      OthersHoldNothing(site, p, role, step.actor);
    }
  }

  lemma StepLeavesSoleHolder(site: Site, step: Step, p: Pk, role: Role)
    requires Inv(site) && role in GUARDED_ROLES && SoleHolder(site, p, role) && ByOthers(step, p)
    ensures SoleHolder(Do(site, step), p, role) && Untouched(site.rows[p], Do(site, step).rows[p])
  {
    OnlyThoseAllowedTouch(site, step, p);
    if TakenBy(step).Some? {
      OthersHoldNothing(site, p, role, TakenBy(step).value);
    }
    RoleStands(site, step, p, role, p, role);
    forall q | q in Do(site, step).rows && q != p
      ensures role !in AccountRoles(Do(site, step).rows[q]) && SystemAdmin !in AccountRoles(Do(site, step).rows[q])
    {
      RoleStands(site, step, p, role, q, role);
      RoleStands(site, step, p, role, q, SystemAdmin);
    }
  }

  /**
   The only holder of a guarded role, where nobody else is a system administrator, is left alone by
   everybody else over every run: nobody asks for another address for it, or opens, closes or blocks it,
   and nobody comes to hold the role beside it.
   */
  lemma {:induction false} SoleHolderIsLeftAlone(site: Site, events: seq<Event>, p: Pk, role: Role)
    requires Inv(site) && role in GUARDED_ROLES && SoleHolder(site, p, role)
    requires forall i :: 0 <= i < |events| ==> ByOthers(events[i].step, p)
    ensures SoleHolder(Run(site, events), p, role) && Untouched(site.rows[p], Run(site, events).rows[p])
    decreases |events|
  {
    if events != [] {
      var ticked := Tick(site, events[0].wait);
      TickKeepsInv(site, events[0].wait);
      Address.DoKeepsInv(ticked, events[0].step);
      StepLeavesSoleHolder(ticked, events[0].step, p, role);
      SoleHolderIsLeftAlone(Apply(site, events[0]), events[1..], p, role);
    }
  }
}
