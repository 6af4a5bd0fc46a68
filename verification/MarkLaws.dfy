/** What a verified address says: mail to it was read. */
module MarkLaws {
  import opened Outcomes
  import opened Accounts
  import opened EmailChange
  import opened MailedLinks
  import opened AccountRuns
  import Address = AddressLaws
  import Steps = RecoveryLaws

  /** Some link signed for `p` was mailed to the address `key`, lowered and stripped. */
  ghost predicate Mailed(site: Site, p: Pk, key: string) {
    || (exists l :: l in site.verifyLinks && l.user == p && l.email == key)
    || (exists l :: l in site.changeLinks && l.user == p && l.changeTo == key)
    || (exists l :: l in site.undoLinks && l.user == p && NormalizedEmail(l.previous) == key)
    || (exists l :: l in site.resetLinks && l.user == p && NormalizedEmail(l.email) == key)
  }

  /** A verified account is no donor, and a link was mailed to its address. */
  ghost predicate Backed(site: Site, p: Pk, user: Account) {
    user.emailVerified ==> !IsDonor(user) && Mailed(site, p, NormalizedEmail(user.email))
  }

  ghost predicate MarksBacked(site: Site) {
    forall p :: p in site.rows ==> Backed(site, p, site.rows[p])
  }

  // ------------------------------------------------------- links are never taken back

  ghost predicate LinksGrow(site: Site, after: Site) {
    && site.verifyLinks <= after.verifyLinks && site.changeLinks <= after.changeLinks
    && site.undoLinks <= after.undoLinks && site.resetLinks <= after.resetLinks
  }

  lemma MailedStays(site: Site, after: Site, p: Pk, key: string)
    requires LinksGrow(site, after) && Mailed(site, p, key)
    ensures Mailed(after, p, key)
  {
  }

  lemma RequestGrowsLinks(site: Site, actor: Actor, p: Pk, email: string, quiet: bool)
    requires p in site.rows
    ensures LinksGrow(site, RequestChange(site, actor, p, email, quiet).site)
  {
  }

  lemma VerifyingGrowsLinks(site: Site, link: VerifyLink, withPassword: bool)
    ensures LinksGrow(site, VerifyEmail(site, link, withPassword).site)
  {
  }

  lemma ResettingGrowsLinks(site: Site, link: ResetLink)
    ensures LinksGrow(site, ConfirmReset(site, link).site)
  {
    if ConfirmReset(site, link).outcome.PasswordChosen? {
      Steps.ReopenedRow(site, link.user);
    }
  }

  lemma StatusGrowsLinks(site: Site, step: Step)
    requires IsStatusStep(step) && step.p in site.rows
    ensures LinksGrow(site, DoStatus(site, step))
  {
  }

  lemma StepGrowsLinks(site: Site, step: Step)
    ensures LinksGrow(site, Do(site, step))
  {
    if Subject(step).Some? && Subject(step).value !in site.rows {
    } else if IsStatusStep(step) {
      StatusGrowsLinks(site, step);
    } else {
      match step
      case AskOwn(p, email) => RequestGrowsLinks(site, Person(p), p, email, true);
      case AskFor(actor, p, email) => RequestGrowsLinks(site, actor, p, email, false);
      case Verify(link, withPassword) => VerifyingGrowsLinks(site, link, withPassword);
      case Reset(link) => ResettingGrowsLinks(site, link);
      case _ =>
    }
  }

  lemma {:induction false} RunGrowsLinks(site: Site, events: seq<Event>)
    ensures LinksGrow(site, Run(site, events))
    decreases |events|
  {
    if events != [] {
      StepGrowsLinks(Tick(site, events[0].wait), events[0].step);
      RunGrowsLinks(Apply(site, events[0]), events[1..]);
    }
  }

  // ---------------------------------------------------------- what each step proves

  /** The mark of `user` vouches for no more than it did for `was`. */
  ghost predicate SameMark(was: Account, user: Account) {
    user.emailVerified == was.emailVerified && user.email == was.email && (IsDonor(user) ==> IsDonor(was))
  }

  /** `step` follows a link in date that was mailed to `key`, and that its account may still follow. */
  ghost predicate FollowsLinkTo(site: Site, step: Step, key: string) {
    match step
    case Complete(link) =>
      link in site.changeLinks && !Lapsed(link.at, site.verificationTimeout, site.now) && link.changeTo == key
    case Undo(link) => UndoHonored(site, link) && NormalizedEmail(link.previous) == key
    case Verify(link, _) => VerifyHonored(site, link) && link.email == key
    case Reset(link) => ResetHonored(site, link) && NormalizedEmail(link.email) == key
    case _ => false
  }

  lemma PasswordStepsKeepMark(site: Site, p: Pk, seen: nat)
    requires p in site.rows
    ensures SameMark(site.rows[p], ReplacePassword(site, p, seen).site.rows[p])
    ensures SameMark(site.rows[p], ClearPassword(site, p).rows[p])
    ensures SameMark(site.rows[p], PasswordNotice(site, p).rows[p])
  {
  }

  lemma MailStepsKeepMark(site: Site, p: Pk, requestedBy: Option<Pk>, upgrade: Option<PersonKind>, invitation: bool)
    requires p in site.rows
    ensures SameMark(site.rows[p], SendChangeLink(site, p, requestedBy).rows[p])
    ensures SameMark(site.rows[p], SendVerification(site, p, upgrade).rows[p])
    ensures SameMark(site.rows[p], SendPasswordLink(site, p, invitation).rows[p])
  {
  }

  lemma StatusStepKeepsMark(site: Site, step: Step)
    requires IsStatusStep(step) && step.p in site.rows
    ensures step.p in DoStatus(site, step).rows
    ensures SameMark(site.rows[step.p], DoStatus(site, step).rows[step.p])
  {
  }

  /** Asking leaves the mark, but for the address written at once for a donor. */
  lemma AskingKeepsMark(site: Site, actor: Actor, p: Pk, email: string, quiet: bool)
    requires p in site.rows
    ensures
      var was, after := site.rows[p], RequestChange(site, actor, p, email, quiet).site;
      && p in after.rows
      && (SameMark(was, after.rows[p]) || (IsDonor(was) && after.rows[p].emailVerified == was.emailVerified))
  {
    Steps.RequestRows(site, actor, p, email, quiet);
  }

  lemma CompletingProves(site: Site, link: ChangeLink)
    requires Inv(site) && link.user in site.rows
    ensures
      var was, after := site.rows[link.user], CompleteChange(site, link).site;
      && link.user in after.rows
      && (SameMark(was, after.rows[link.user])
          || (!IsDonor(after.rows[link.user])
              && FollowsLinkTo(site, Complete(link), NormalizedEmail(after.rows[link.user].email))))
  {
    assert NormalizedEmail("") == "";
  }

  lemma UndoingProves(site: Site, link: UndoLink)
    requires link.user in site.rows
    ensures
      var was, after := site.rows[link.user], UndoChange(site, link).site;
      && link.user in after.rows
      && (SameMark(was, after.rows[link.user])
          || (!IsDonor(after.rows[link.user])
              && FollowsLinkTo(site, Undo(link), NormalizedEmail(after.rows[link.user].email))))
  {
    Steps.NormalizedOfStripped(link.previous);
  }

  lemma VerifyingProves(site: Site, link: VerifyLink, withPassword: bool)
    requires link.user in site.rows
    ensures
      var was, after := site.rows[link.user], VerifyEmail(site, link, withPassword).site;
      && link.user in after.rows
      && (SameMark(was, after.rows[link.user])
          || (!IsDonor(after.rows[link.user])
              && FollowsLinkTo(site, Verify(link, withPassword), NormalizedEmail(after.rows[link.user].email))))
  {
  }

  lemma ResettingProves(site: Site, link: ResetLink)
    requires link.user in site.rows
    ensures
      var was, after := site.rows[link.user], ConfirmReset(site, link).site;
      && link.user in after.rows
      && (SameMark(was, after.rows[link.user])
          || (!IsDonor(after.rows[link.user])
              && FollowsLinkTo(site, Reset(link), NormalizedEmail(after.rows[link.user].email))))
  {
    if ConfirmReset(site, link).outcome.PasswordChosen? {
      Steps.ResetRows(site, link);
    }
  }

  lemma OtherStepsKeepMark(site: Site, step: Step, p: Pk)
    requires Subject(step) == Some(p) && p in site.rows && !IsStatusStep(step)
    requires !(step.Complete? || step.Undo? || step.Verify? || step.Reset? || step.AskOwn? || step.AskFor?)
    ensures p in Do(site, step).rows && SameMark(site.rows[p], Do(site, step).rows[p])
  {
    match step
    case NewPassword(_, seen) => PasswordStepsKeepMark(site, p, seen);
    case RequirePassword(_) => PasswordStepsKeepMark(site, p, 0);
    case TellPasswordChanged(_) => PasswordStepsKeepMark(site, p, 0);
    case Resend(_, requestedBy) => MailStepsKeepMark(site, p, requestedBy, None, false);
    case MailVerification(_, upgrade) => MailStepsKeepMark(site, p, None, upgrade, false);
    case MailPasswordLink(_, invitation) => MailStepsKeepMark(site, p, None, None, invitation);
  }

  /**
   An account newly marked as verified, or verified and newly moved, has just had a link followed that was
   mailed to that very address, in date.
   */
  lemma VerifiedAddressIsProved(site: Site, step: Step, p: Pk)
    requires Inv(site) && p in site.rows && Backed(site, p, site.rows[p])
    ensures
      && p in Do(site, step).rows
      && var was, user := site.rows[p], Do(site, step).rows[p];
         user.emailVerified && !SameMark(was, user) ==>
           Subject(step) == Some(p) && !IsDonor(user) && FollowsLinkTo(site, step, NormalizedEmail(user.email))
  {
    if Subject(step) != Some(p) {
      Steps.OthersUntouched(site, step, p);
    } else if IsStatusStep(step) {
      StatusStepKeepsMark(site, step);
    } else {
      match step
      case Complete(link) => CompletingProves(site, link);
      case Undo(link) => UndoingProves(site, link);
      case Verify(link, withPassword) => VerifyingProves(site, link, withPassword);
      case Reset(link) => ResettingProves(site, link);
      case AskOwn(_, email) => AskingKeepsMark(site, Person(p), p, email, true);
      case AskFor(actor, _, email) => AskingKeepsMark(site, actor, p, email, false);
      case _ => OtherStepsKeepMark(site, step, p);
    }
  }

  lemma FollowedWasMailed(site: Site, step: Step, p: Pk, key: string)
    requires Subject(step) == Some(p) && FollowsLinkTo(site, step, key)
    ensures Mailed(site, p, key)
  {
  }

  lemma NewAccountsAreUnverified(site: Site, step: Step, p: Pk)
    requires p in Do(site, step).rows && p !in site.rows
    ensures !Do(site, step).rows[p].emailVerified
  {
    if Subject(step).Some? {
      Steps.NobodyAppears(site, step, p);
    }
  }

  lemma StepKeepsMarks(site: Site, step: Step)
    requires Inv(site) && MarksBacked(site)
    ensures MarksBacked(Do(site, step))
  {
    var after := Do(site, step);
    StepGrowsLinks(site, step);
    forall p | p in after.rows ensures Backed(after, p, after.rows[p]) {
      if p !in site.rows {
        NewAccountsAreUnverified(site, step, p);
      } else if after.rows[p].emailVerified {
        VerifiedAddressIsProved(site, step, p);
        var key := NormalizedEmail(after.rows[p].email);
        if !SameMark(site.rows[p], after.rows[p]) {
          FollowedWasMailed(site, step, p, key);
        }
        MailedStays(site, after, p, key);
      }
    }
  }

  lemma {:induction false} RunKeepsMarks(site: Site, events: seq<Event>)
    requires Inv(site) && MarksBacked(site)
    ensures MarksBacked(Run(site, events))
    decreases |events|
  {
    if events != [] {
      var ticked := Tick(site, events[0].wait);
      TickKeepsInv(site, events[0].wait);
      TickKeepsMarks(site, events[0].wait);
      Address.DoKeepsInv(ticked, events[0].step);
      StepKeepsMarks(ticked, events[0].step);
      RunKeepsMarks(Apply(site, events[0]), events[1..]);
    }
  }

  lemma TickKeepsMarks(site: Site, wait: nat)
    requires MarksBacked(site)
    ensures MarksBacked(Tick(site, wait))
  {
    forall p | p in site.rows ensures Backed(Tick(site, wait), p, site.rows[p]) {
      if site.rows[p].emailVerified {
        MailedStays(site, Tick(site, wait), p, NormalizedEmail(site.rows[p].email));
      }
    }
  }

  /** On every site a run reaches, a link of some kind was mailed to the address of every verified account. */
  lemma VerifiedAddressWasMailed(now: nat, verificationTimeout: nat, resetTimeout: nat, events: seq<Event>, p: Pk)
    requires
      var site := Run(Steps.EmptySite(now, verificationTimeout, resetTimeout), events);
      p in site.rows && site.rows[p].emailVerified
    ensures
      var site := Run(Steps.EmptySite(now, verificationTimeout, resetTimeout), events);
      !IsDonor(site.rows[p]) && Mailed(site, p, NormalizedEmail(site.rows[p].email))
  {
    RunKeepsMarks(Steps.EmptySite(now, verificationTimeout, resetTimeout), events);
  }
}
