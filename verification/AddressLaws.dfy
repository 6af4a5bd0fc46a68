/** The address rules every run of account steps keeps. */
module AddressLaws {
  import opened Outcomes
  import opened Text
  import opened Accounts
  import opened EmailChange
  import opened MailedLinks
  import opened AccountRuns
  import Status = AccountStatus

  // ------------------------------------------- each step keeps the invariant

  lemma FreeToMove(site: Site, p: Pk, address: string)
    requires !AddressTaken(site, address, Some(p))
    ensures forall q :: q in site.rows && q != p ==> !Holds(site.rows[q], NormalizedEmail(address), site.now)
  {
    forall q | q in site.rows && q != p
      ensures !Holds(site.rows[q], NormalizedEmail(address), site.now)
    {
      assert Some(q) != Some(p);
    }
  }

  /** A write that leaves an account's addresses alone keeps the invariant. */
  lemma QuietWriteKeepsInv(site: Site, p: Pk, user: Account, after: Site)
    requires Inv(site) && p in site.rows && Writes(site, p, user, after)
    requires
      var was := site.rows[p];
      && user.email == was.email && user.recoveryEmail == was.recoveryEmail
      && user.recoveryUntil == was.recoveryUntil && user.undoneAt == was.undoneAt
    requires Sound(user, after.now, after.nextHash)
    requires after.undoLinks == site.undoLinks
    requires after.changeLinks == site.changeLinks
    ensures Inv(after)
  {
    assert LinkOut(site, p, site.rows[p]);
    assert LinkOut(after, p, user);
    WriteKeepsInv(site, p, user, after);
  }

  /** Signing links for what an account already holds keeps the invariant. */
  lemma SigningKeepsInv(site: Site, after: Site)
    requires Inv(site)
    requires after == site.(changeLinks := after.changeLinks, undoLinks := after.undoLinks,
                            verifyLinks := after.verifyLinks, resetLinks := after.resetLinks)
    requires site.undoLinks <= after.undoLinks
    requires LinksSound(after)
    ensures Inv(after)
  {
    forall p | p in after.rows ensures LinkOut(after, p, after.rows[p]) {
      assert LinkOut(site, p, site.rows[p]);
    }
    forall p, q | p in after.rows && q in after.rows && p != q
      ensures Apart(after.rows[p], after.rows[q], after.now)
    {
      assert Apart(site.rows[p], site.rows[q], site.now);
    }
  }

  lemma SendChangeLinkKeepsInv(site: Site, p: Pk, requestedBy: Option<Pk>)
    requires Inv(site) && p in site.rows
    ensures Inv(SendChangeLink(site, p, requestedBy))
  {
    SigningKeepsInv(site, SendChangeLink(site, p, requestedBy));
  }

  lemma SendNoticeKeepsInv(site: Site, p: Pk, previous: string, newEmail: string)
    requires Inv(site) && p in site.rows && Stripped(previous)
    ensures Inv(SendNotice(site, p, previous, newEmail))
  {
    SigningKeepsInv(site, SendNotice(site, p, previous, newEmail));
  }

  lemma DonorWriteKeepsInv(site: Site, p: Pk, address: string)
    requires Inv(site) && p in site.rows && IsDonor(site.rows[p])
    requires Stripped(address) && !AddressTaken(site, address, Some(p))
    ensures Inv(site.(rows := site.rows[p := site.rows[p].(email := address)]))
  {
    var user := site.rows[p].(email := address);
    var after := site.(rows := site.rows[p := user]);
    FreeToMove(site, p, address);
    assert LinkOut(site, p, site.rows[p]);
    assert LinkOut(after, p, user);
    WriteKeepsInv(site, p, user, after);
  }

  lemma AskingKeepsInv(site: Site, actor: Actor, p: Pk, address: string)
    requires Inv(site) && p in site.rows && Stripped(address) && !IsDonor(site.rows[p])
    ensures Inv(AskedSite(site, actor, p, address))
  {
    var user := site.rows[p].(pendingEmail := address);
    var pending := site.(rows := site.rows[p := user]);
    QuietWriteKeepsInv(site, p, user, pending);
    var asker := if actor.Person? then Some(actor.pk) else None;
    SendChangeLinkKeepsInv(pending, p, asker);
    SendNoticeKeepsInv(SendChangeLink(pending, p, asker), p, NoticeAddress(site.rows[p], site.now), address);
  }

  lemma {:induction false} RequestKeepsInv(site: Site, actor: Actor, p: Pk, email: string, quiet: bool)
    requires Inv(site) && p in site.rows
    requires !(quiet && IsDonor(site.rows[p]))
    ensures Inv(RequestChange(site, actor, p, email, quiet).site)
  {
    match RequestChange(site, actor, p, email, quiet).outcome
    case DonorWritten => DonorWriteKeepsInv(site, p, Strip(email));
    case Asked => AskingKeepsInv(site, actor, p, Strip(email));
    case _ =>
  }

  lemma {:induction false} CompleteKeepsInv(site: Site, link: ChangeLink)
    requires Inv(site) && UndonesPast(site)
    ensures Inv(CompleteChange(site, link).site)
  {
    var reply := CompleteChange(site, link);
    if reply.outcome == Moved {
      var p := link.user;
      var user := site.rows[p];
      var moved := MovedAccount(user, site.now);
      FreeToMove(site, p, user.pendingEmail);
      assert LinksSound(reply.site);
      if moved.recoveryEmail != "" {
        var out := UndoLink(p, moved.recoveryEmail, moved.email, site.now);
        assert out in reply.site.undoLinks;
      }
      WriteKeepsInv(site, p, moved, reply.site);
    }
  }

  lemma {:induction false} UndoKeepsInv(site: Site, link: UndoLink)
    requires Inv(site)
    ensures Inv(UndoChange(site, link).site)
  {
    var reply := UndoChange(site, link);
    if reply.outcome.Undone? {
      var p := link.user;
      if reply.outcome.restored {
        FreeToMove(site, p, link.previous);
      }
      WriteKeepsInv(site, p, reply.site.rows[p], reply.site);
    }
  }

  lemma ReplacePasswordKeepsInv(site: Site, p: Pk, seen: nat)
    requires Inv(site) && p in site.rows
    ensures Inv(ReplacePassword(site, p, seen).site)
  {
    if site.rows[p].password.hash == seen {
      var replaced := ReplacePassword(site, p, seen).site;
      QuietWriteKeepsInv(site, p, replaced.rows[p], replaced);
    }
  }

  lemma ClearPasswordKeepsInv(site: Site, p: Pk)
    requires Inv(site) && p in site.rows
    ensures Inv(ClearPassword(site, p))
  {
    var cleared := ClearPassword(site, p);
    QuietWriteKeepsInv(site, p, cleared.rows[p], cleared);
  }

  lemma PasswordNoticeKeepsInv(site: Site, p: Pk)
    requires Inv(site) && p in site.rows
    ensures Inv(PasswordNotice(site, p))
  {
    if !IsDonor(site.rows[p]) {
      SendNoticeKeepsInv(site, p, RecoveryAddress(site.rows[p], site.now), site.rows[p].email);
    }
  }

  lemma ConfirmKeepsInv(site: Site, p: Pk, address: string)
    requires Inv(site) && p in site.rows
    ensures Inv(ConfirmAddress(site, p, address).site)
  {
    var confirmed := ConfirmAddress(site, p, address).site;
    if confirmed != site {
      QuietWriteKeepsInv(site, p, confirmed.rows[p], confirmed);
    }
  }

  lemma UpgradeKeepsInv(site: Site, p: Pk, kind: PersonKind)
    requires Inv(site) && p in site.rows
    ensures Inv(UpgradeDonor(site, p, kind))
  {
    var upgraded := UpgradeDonor(site, p, kind);
    QuietWriteKeepsInv(site, p, upgraded.rows[p], upgraded);
  }

  lemma VerifyKeepsInv(site: Site, link: VerifyLink, withPassword: bool)
    requires Inv(site)
    ensures Inv(VerifyEmail(site, link, withPassword).site)
  {
    if VerifyHonored(site, link) {
      var p, email := link.user, site.rows[link.user].email;
      if !IsDonor(site.rows[p]) {
        ConfirmKeepsInv(site, p, email);
      } else if withPassword {
        UpgradeKeepsInv(site, p, link.upgrade.value);
        ConfirmKeepsInv(UpgradeDonor(site, p, link.upgrade.value), p, email);
      }
    }
  }

  lemma ReopenedKeepsInv(site: Site, p: Pk, hash: nat, email: string)
    requires Inv(site) && p in site.rows
    ensures p in Reopened(site, p, hash, email).rows && Inv(Reopened(site, p, hash, email))
  {
    ReplacePasswordKeepsInv(site, p, hash);
    var replaced := ReplacePassword(site, p, hash).site;
    ConfirmKeepsInv(replaced, p, email);
    if !site.rows[p].isActive {
      RewriteKeepsInv(ConfirmAddress(replaced, p, email).site, p, Reopened(site, p, hash, email));
    }
  }

  lemma ResetKeepsInv(site: Site, link: ResetLink)
    requires Inv(site)
    ensures Inv(ConfirmReset(site, link).site)
  {
    if ResetHonored(site, link) && !site.rows[link.user].reactivationBlocked {
      ReopenedKeepsInv(site, link.user, link.hash, link.email);
      PasswordNoticeKeepsInv(Reopened(site, link.user, link.hash, link.email), link.user);
    }
  }

  lemma VerificationKeepsInv(site: Site, p: Pk, upgrade: Option<PersonKind>)
    requires Inv(site) && p in site.rows
    ensures Inv(SendVerification(site, p, upgrade))
  {
    SigningKeepsInv(site, SendVerification(site, p, upgrade));
  }

  lemma PasswordLinkKeepsInv(site: Site, p: Pk, invitation: bool)
    requires Inv(site) && p in site.rows
    ensures Inv(SendPasswordLink(site, p, invitation))
  {
    SigningKeepsInv(site, SendPasswordLink(site, p, invitation));
  }

  lemma RegisterKeepsInv(site: Site, email: string, kind: Kind, usable: bool)
    requires Inv(site)
    ensures Inv(Register(site, email, kind, usable))
  {
    if !AddressTaken(site, email, None) {
      var after := Register(site, email, kind, usable);
      forall q | q in site.rows ensures !Holds(site.rows[q], NormalizedEmail(email), site.now) {
        assert Some(q) != None;
      }
      WriteKeepsInv(site, site.nextPk, after.rows[site.nextPk], after);
    }
  }

  lemma RewriteKeepsInv(site: Site, p: Pk, after: Site)
    requires Inv(site) && p in site.rows
    requires p in after.rows
    requires after == site || after == site.(rows := site.rows[p := after.rows[p]])
    requires
      var was := site.rows[p];
      var user := after.rows[p];
      && user.email == was.email && user.recoveryEmail == was.recoveryEmail
      && user.recoveryUntil == was.recoveryUntil && user.undoneAt == was.undoneAt
      && user.password == was.password
      && (user.pendingEmail == was.pendingEmail || user.pendingEmail == "")
      && (IsDonor(user) ==> IsDonor(was))
    ensures Inv(after)
  {
    if after != site {
      QuietWriteKeepsInv(site, p, after.rows[p], after);
    }
  }

  lemma EditKeepsInv(site: Site, actor: Actor, p: Pk, roles: Option<set<Role>>, kind: Option<PersonKind>)
    requires Inv(site) && p in site.rows
    ensures Inv(Status.UpdateAccount(site, actor, p, roles, kind).site)
  {
    RewriteKeepsInv(site, p, Status.UpdateAccount(site, actor, p, roles, kind).site);
  }

  lemma StatusStepKeepsInv(site: Site, step: Step)
    requires Inv(site) && IsStatusStep(step) && step.p in site.rows
    ensures Inv(DoStatus(site, step))
  {
    match step
    case Edit(actor, p, roles, kind) => EditKeepsInv(site, actor, p, roles, kind);
    case MarkVerifier(actor, p, wanted) =>
      var held := site.rows[p].roles - {Verifier};
      EditKeepsInv(site, actor, p, Some(if wanted then held + {Verifier} else held), None);
    case LeaveOwn(p) => RewriteKeepsInv(site, p, Status.DeactivateOwn(site, p).site);
    case Deactivate(admin, p) => RewriteKeepsInv(site, p, Status.Deactivate(site, admin, p).site);
    case ReturnOwn(p) => RewriteKeepsInv(site, p, Status.ReactivateOwn(site, p).site);
    case Reactivate(admin, p) => RewriteKeepsInv(site, p, Status.Reactivate(site, admin, p).site);
    case Block(admin, p, blocked) => RewriteKeepsInv(site, p, Status.SetReactivationBlocked(site, admin, p, blocked).site);
  }

  /** Following a link about a change of address. */
  lemma ChangeLinkKeepsInv(site: Site, step: Step)
    requires Inv(site) && UndonesPast(site) && (step.Complete? || step.Undo?) && Subject(step).value in site.rows
    ensures Inv(Do(site, step))
  {
    if step.Complete? {
      CompleteKeepsInv(site, step.change);
    } else {
      UndoKeepsInv(site, step.undo);
    }
  }

  /** Following a link that verifies an address or resets a password. */
  lemma ProofLinkKeepsInv(site: Site, step: Step)
    requires Inv(site) && (step.Verify? || step.Reset?) && Subject(step).value in site.rows
    ensures Inv(Do(site, step))
  {
    if step.Verify? {
      VerifyKeepsInv(site, step.verification, step.withPassword);
    } else {
      ResetKeepsInv(site, step.reset);
    }
  }

  lemma PasswordStepKeepsInv(site: Site, step: Step)
    requires Inv(site) && (step.NewPassword? || step.RequirePassword? || step.TellPasswordChanged?) && step.p in site.rows
    ensures Inv(Do(site, step))
  {
    match step
    case NewPassword(p, seen) => ReplacePasswordKeepsInv(site, p, seen);
    case RequirePassword(p) => ClearPasswordKeepsInv(site, p);
    case TellPasswordChanged(p) => PasswordNoticeKeepsInv(site, p);
  }

  lemma AskingStepKeepsInv(site: Site, step: Step)
    requires Inv(site) && (step.AskOwn? || step.AskFor? || step.Resend?) && step.p in site.rows
    ensures Inv(Do(site, step))
  {
    match step
    case AskOwn(p, email) =>
      if !IsDonor(site.rows[p]) { RequestKeepsInv(site, Person(p), p, email, true); }
    case AskFor(actor, p, email) => RequestKeepsInv(site, actor, p, email, false);
    case Resend(p, requestedBy) => SendChangeLinkKeepsInv(site, p, requestedBy);
  }

  lemma MailingStepKeepsInv(site: Site, step: Step)
    requires Inv(site) && (step.MailVerification? || step.MailPasswordLink?) && step.p in site.rows
    ensures Inv(Do(site, step))
  {
    if step.MailVerification? {
      VerificationKeepsInv(site, step.p, step.upgrade);
      assert Do(site, step) == SendVerification(site, step.p, step.upgrade);
    } else {
      PasswordLinkKeepsInv(site, step.p, step.invitation);
      assert Do(site, step) == SendPasswordLink(site, step.p, step.invitation);
    }
  }

  lemma DoKeepsInv(site: Site, step: Step)
    requires Inv(site) && UndonesPast(site)
    ensures Inv(Do(site, step))
  {
    if Subject(step).Some? && Subject(step).value !in site.rows {
    } else if IsStatusStep(step) {
      StatusStepKeepsInv(site, step);
    } else if step.Complete? || step.Undo? {
      ChangeLinkKeepsInv(site, step);
    } else if step.Verify? || step.Reset? {
      ProofLinkKeepsInv(site, step);
    } else if step.NewPassword? || step.RequirePassword? || step.TellPasswordChanged? {
      PasswordStepKeepsInv(site, step);
    } else if step.AskOwn? || step.AskFor? || step.Resend? {
      AskingStepKeepsInv(site, step);
    } else if step.Open? {
      RegisterKeepsInv(site, step.email, step.newKind, step.usable);
    } else {
      MailingStepKeepsInv(site, step);
    }
  }

  /** Every run keeps the invariant: no address ever belongs to two accounts. */
  lemma {:induction false} RunKeepsInv(site: Site, events: seq<Event>)
    requires Inv(site)
    ensures Inv(Run(site, events))
    ensures AddressesUnique(Run(site, events))
    decreases |events|
  {
    if events != [] {
      TickKeepsInv(site, events[0].wait);
      DoKeepsInv(Tick(site, events[0].wait), events[0].step);
      RunKeepsInv(Apply(site, events[0]), events[1..]);
    }
  }
}
