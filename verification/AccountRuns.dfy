/** Runs of account steps, and the invariant every run keeps. */
module AccountRuns {
  import opened Outcomes
  import opened Text
  import opened Accounts
  import opened EmailChange
  import opened MailedLinks
  import Status = AccountStatus

  /** One thing anybody may have the site do. */
  datatype Step =
    | AskOwn(p: Pk, email: string)
    | AskFor(actor: Actor, p: Pk, email: string)
    | Resend(p: Pk, requestedBy: Option<Pk>)
    | Complete(change: ChangeLink)
    | Undo(undo: UndoLink)
    | NewPassword(p: Pk, seen: nat)
    | RequirePassword(p: Pk)
    | TellPasswordChanged(p: Pk)
    | MailVerification(p: Pk, upgrade: Option<PersonKind>)
    | Verify(verification: VerifyLink, withPassword: bool)
    | MailPasswordLink(p: Pk, invitation: bool)
    | Reset(reset: ResetLink)
    | Open(email: string, newKind: Kind, usable: bool)
    | Edit(actor: Actor, p: Pk, roles: Option<set<Role>>, kind: Option<PersonKind>)
    | MarkVerifier(actor: Actor, p: Pk, wanted: bool)
    | LeaveOwn(p: Pk)
    | Deactivate(admin: Pk, p: Pk)
    | ReturnOwn(p: Pk)
    | Reactivate(admin: Pk, p: Pk)
    | Block(admin: Pk, p: Pk, blocked: bool)

  /** A step taken `wait` ticks, and one more, after the step before it. */
  datatype Event = Event(wait: nat, step: Step)

  function Tick(site: Site, wait: nat): Site {
    site.(now := site.now + 1 + wait)
  }

  /** The account a step writes to, when it names one. */
  function Subject(step: Step): Option<Pk> {
    match step
    case Complete(link) => Some(link.user)
    case Undo(link) => Some(link.user)
    case Verify(link, _) => Some(link.user)
    case Reset(link) => Some(link.user)
    case Open(_, _, _) => None
    case _ => Some(step.p)
  }

  /** The steps on roles, the kind and the active flag. */
  predicate IsStatusStep(step: Step) {
    step.Edit? || step.MarkVerifier? || step.LeaveOwn? || step.Deactivate? || step.ReturnOwn? || step.Reactivate? || step.Block?
  }

  function DoStatus(site: Site, step: Step): Site
    requires IsStatusStep(step) && step.p in site.rows
  {
    match step
    case Edit(actor, p, roles, kind) => Status.UpdateAccount(site, actor, p, roles, kind).site
    case MarkVerifier(actor, p, wanted) => Status.SetVerifier(site, actor, p, wanted).site
    case LeaveOwn(p) => Status.DeactivateOwn(site, p).site
    case Deactivate(admin, p) => Status.Deactivate(site, admin, p).site
    case ReturnOwn(p) => Status.ReactivateOwn(site, p).site
    case Reactivate(admin, p) => Status.Reactivate(site, admin, p).site
    case Block(admin, p, blocked) => Status.SetReactivationBlocked(site, admin, p, blocked).site
  }

  /** What a step leaves; one naming an account that does not exist leaves everything alone. */
  function Do(site: Site, step: Step): Site {
    if Subject(step).Some? && Subject(step).value !in site.rows then site
    else if IsStatusStep(step) then DoStatus(site, step)
    else
      match step
      // The endpoint is for a signed-in account, which no donor is.
      case AskOwn(p, email) =>
        if IsDonor(site.rows[p]) then site else RequestChange(site, Person(p), p, email, true).site
      case AskFor(actor, p, email) => RequestChange(site, actor, p, email, false).site
      case Resend(p, requestedBy) => SendChangeLink(site, p, requestedBy)
      case Complete(link) => CompleteChange(site, link).site
      case Undo(link) => UndoChange(site, link).site
      case NewPassword(p, seen) => ReplacePassword(site, p, seen).site
      case RequirePassword(p) => ClearPassword(site, p)
      case TellPasswordChanged(p) => PasswordNotice(site, p)
      case MailVerification(p, upgrade) => SendVerification(site, p, upgrade)
      case Verify(link, withPassword) => VerifyEmail(site, link, withPassword).site
      case MailPasswordLink(p, invitation) => SendPasswordLink(site, p, invitation)
      case Reset(link) => ConfirmReset(site, link).site
      case Open(email, kind, usable) => Register(site, email, kind, usable)
  }

  function Apply(site: Site, event: Event): Site {
    Do(Tick(site, event.wait), event.step)
  }

  /** The site after `events`, one after the other. */
  function Run(site: Site, events: seq<Event>): Site
    decreases |events|
  {
    if events == [] then site else Run(Apply(site, events[0]), events[1..])
  }

  // -------------------------------------------------------------- invariant

  /** No address belongs to both accounts. */
  ghost predicate Apart(u: Account, v: Account, now: nat) {
    forall key :: !(Holds(u, key, now) && Holds(v, key, now))
  }

  /** No address belongs to two accounts, as a sign-in address or a kept recovery address. */
  ghost predicate AddressesUnique(site: Site) {
    forall p, q :: p in site.rows && q in site.rows && p != q ==> Apart(site.rows[p], site.rows[q], site.now)
  }

  ghost predicate Sound(user: Account, now: nat, nextHash: nat) {
    && Stripped(user.email) && Stripped(user.pendingEmail) && Stripped(user.recoveryEmail)
    && (user.recoveryUntil.Some? <==> user.recoveryEmail != "")
    && (user.recoveryUntil.Some? ==> UNDO_TIMEOUT * SECOND <= user.recoveryUntil.value <= now + UNDO_TIMEOUT * SECOND)
    && (IsDonor(user) ==> user.pendingEmail == "" && user.recoveryEmail == "")
    && (user.undoneAt.Some? ==> user.undoneAt.value <= now)
    && user.password.hash < nextHash
  }

  ghost predicate LinksSound(site: Site) {
    && (forall l :: l in site.undoLinks ==> l.at <= site.now && l.user < site.nextPk && l.previous != "" && Stripped(l.previous))
    && (forall l :: l in site.changeLinks ==> l.at <= site.now && l.user < site.nextPk && l.hash < site.nextHash && l.changeTo != "")
  }

  /** An unspent link to the recovery address of `user`, signed when its keeping began. */
  ghost predicate LinkOut(site: Site, p: Pk, user: Account) {
    user.recoveryUntil.Some? ==>
      exists l ::
        && l in site.undoLinks
        && l.user == p
        && l.previous == user.recoveryEmail
        && l.at + UNDO_TIMEOUT * SECOND == user.recoveryUntil.value
        && !IsSpent(user, l.at)
  }

  ghost predicate Inv(site: Site) {
    && (forall p :: p in site.rows ==> p < site.nextPk)
    && (forall p :: p in site.rows ==> Sound(site.rows[p], site.now, site.nextHash))
    && (forall p :: p in site.rows ==> LinkOut(site, p, site.rows[p]))
    && LinksSound(site)
    && AddressesUnique(site)
  }

  /** Nothing was undone at this very moment: the clock has moved since. */
  ghost predicate UndonesPast(site: Site) {
    forall p :: p in site.rows && site.rows[p].undoneAt.Some? ==> site.rows[p].undoneAt.value < site.now
  }

  // ------------------------------------------------------------ preservation

  lemma TickKeepsInv(site: Site, wait: nat)
    requires Inv(site)
    ensures Inv(Tick(site, wait)) && UndonesPast(Tick(site, wait))
  {
    var later := Tick(site, wait);
    forall p, q | p in site.rows && q in site.rows && p != q
      ensures Apart(later.rows[p], later.rows[q], later.now)
    {
      forall key ensures !(Holds(later.rows[p], key, later.now) && Holds(later.rows[q], key, later.now)) {
        assert Apart(site.rows[p], site.rows[q], site.now);
        assert !(Holds(site.rows[p], key, site.now) && Holds(site.rows[q], key, site.now));
      }
    }
    forall p | p in later.rows ensures LinkOut(later, p, later.rows[p]) {
      assert LinkOut(site, p, site.rows[p]);
    }
  }

  /** Every address `user` holds was held by `p` before, or by nobody but `p`. */
  ghost predicate GainsOnlyFree(site: Site, p: Pk, user: Account) {
    forall key :: Holds(user, key, site.now) ==>
      || (p in site.rows && Holds(site.rows[p], key, site.now))
      || forall q :: q in site.rows && q != p ==> !Holds(site.rows[q], key, site.now)
  }

  /** One row written, hashes and links only added to: what every step comes down to. */
  ghost predicate Writes(site: Site, p: Pk, user: Account, after: Site) {
    && after.rows == site.rows[p := user]
    && after.now == site.now
    && site.nextPk <= after.nextPk && p < after.nextPk
    && site.nextHash <= after.nextHash
    && site.undoLinks <= after.undoLinks
    && site.changeLinks <= after.changeLinks
  }

  lemma {:induction false} WriteKeepsInv(site: Site, p: Pk, user: Account, after: Site)
    requires Inv(site)
    requires Writes(site, p, user, after)
    requires GainsOnlyFree(site, p, user)
    requires Sound(user, after.now, after.nextHash)
    requires LinkOut(after, p, user)
    requires LinksSound(after)
    ensures Inv(after)
  {
    forall q, r | q in after.rows && r in after.rows && q != r
      ensures Apart(after.rows[q], after.rows[r], after.now)
    {
      forall key ensures !(Holds(after.rows[q], key, after.now) && Holds(after.rows[r], key, after.now)) {
        if q in site.rows && r in site.rows {
          assert Apart(site.rows[q], site.rows[r], site.now);
          assert !(Holds(site.rows[q], key, site.now) && Holds(site.rows[r], key, site.now));
        }
      }
    }
    forall q | q in after.rows ensures LinkOut(after, q, after.rows[q]) {
      if q != p {
        assert LinkOut(site, q, site.rows[q]);
      }
    }
  }
}
