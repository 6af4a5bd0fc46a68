/** What the owner of a recovery address can count on, over every run. */
module RecoveryLaws {
  import opened Outcomes
  import opened Text
  import opened Accounts
  import opened EmailChange
  import opened AccountRuns
  import opened AddressLaws
  import opened MailedLinks
  import Status = AccountStatus

  /** A site nobody has used yet. */
  function EmptySite(now: nat, verificationTimeout: nat, resetTimeout: nat): Site {
    Site(map[], 0, now, 0, verificationTimeout, {}, {}, resetTimeout, {}, {})
  }

  /** Every site a run reaches from an empty one keeps the invariant. */
  lemma ReachableSound(now: nat, verificationTimeout: nat, resetTimeout: nat, events: seq<Event>)
    ensures Inv(Run(EmptySite(now, verificationTimeout, resetTimeout), events))
  {
    RunKeepsInv(EmptySite(now, verificationTimeout, resetTimeout), events);
  }

  // ------------------------------------------------------ taking it back

  /** `link` was mailed to the recovery address kept now, is in date, and is newer than any undo. */
  ghost predicate Usable(site: Site, link: UndoLink) {
    && link in site.undoLinks
    && link.user in site.rows
    && var user := site.rows[link.user];
       && RecoveryAddress(user, site.now) != ""
       && NormalizedEmail(link.previous) == NormalizedEmail(user.recoveryEmail)
       && !Lapsed(link.at, UNDO_TIMEOUT, site.now)
       && (user.undoneAt.Some? ==> user.undoneAt.value < link.at)
  }

  /** The account signs in with `address`, with nothing pending, kept or typed in left. */
  ghost predicate TakenBack(user: Account, address: string) {
    && NormalizedEmail(user.email) == NormalizedEmail(address)
    && user.pendingEmail == ""
    && user.recoveryEmail == "" && user.recoveryUntil.None?
    && !user.password.usable
  }

  /** Following a usable undo link succeeds, finds the address free, and takes the account back. */
  lemma UsableLinkTakesBack(site: Site, link: UndoLink)
    requires Inv(site) && Usable(site, link)
    ensures
      var recovery := site.rows[link.user].recoveryEmail;
      var reply := UndoChange(site, link);
      && reply.outcome.Undone? && !reply.outcome.taken
      && !AddressTaken(site, recovery, Some(link.user))
      && link.user in reply.site.rows
      && TakenBack(reply.site.rows[link.user], recovery)
      && reply.site.rows[link.user].isActive == site.rows[link.user].isActive
      && (reply.outcome.restored ==> reply.site.rows[link.user].email == link.previous)
  {
    var p := link.user;
    var user := site.rows[p];
    var key := NormalizedEmail(user.recoveryEmail);
    assert Holds(user, key, site.now);
    forall q | q in site.rows && q != p ensures !Holds(site.rows[q], key, site.now) {
      assert Apart(user, site.rows[q], site.now);
    }
    assert !AddressTaken(site, user.recoveryEmail, Some(p));
    assert !AddressTaken(site, link.previous, Some(p));
  }

  /** The whole seconds `until` leaves have not passed: the link signed when the keeping began has not lapsed. */
  predicate FirstLinkGood(site: Site, until: nat) {
    site.now <= until / SECOND * SECOND
  }

  lemma WholeSecondsShift(at: nat, seconds: nat)
    ensures (at + seconds * SECOND) / SECOND == at / SECOND + seconds
  {
    assert (at + seconds * 1_000_000) / 1_000_000 == at / 1_000_000 + seconds;
  }

  /** The first link to a kept address lapses when the whole seconds of the keeping are over. */
  lemma FirstLinkLapses(site: Site, until: nat, at: nat)
    requires at + UNDO_TIMEOUT * SECOND == until
    ensures Lapsed(at, UNDO_TIMEOUT, site.now) <==> !FirstLinkGood(site, until)
  {
    WholeSecondsShift(at, UNDO_TIMEOUT);
    Distribute(at / SECOND, UNDO_TIMEOUT);
  }

  lemma Distribute(a: nat, b: nat)
    ensures (a + b) * SECOND == a * SECOND + b * SECOND
  {
  }

  /** Until then a recovery address kept has a usable link out. */
  lemma KeptAddressHasUsableLink(site: Site, p: Pk) returns (link: UndoLink)
    requires Inv(site) && p in site.rows
    requires RecoveryAddress(site.rows[p], site.now) != ""
    requires FirstLinkGood(site, site.rows[p].recoveryUntil.value)
    ensures link.user == p && Usable(site, link)
  {
    var user := site.rows[p];
    assert LinkOut(site, p, user);
    link :| && link in site.undoLinks && link.user == p && link.previous == user.recoveryEmail
            && link.at + UNDO_TIMEOUT * SECOND == user.recoveryUntil.value && !IsSpent(user, link.at);
    FirstLinkLapses(site, user.recoveryUntil.value, link.at);
  }

  /** Some link of the account's takes it back: the address it keeps, and nothing else left of the change. */
  ghost predicate CanTakeBack(site: Site, p: Pk)
    requires p in site.rows
  {
    exists link ::
      && link in site.undoLinks && link.user == p
      && var reply := UndoChange(site, link);
         && reply.outcome.Undone? && !reply.outcome.taken
         && p in reply.site.rows && TakenBack(reply.site.rows[p], site.rows[p].recoveryEmail)
  }

  /**
   At the end of every run, the owner of a recovery address holds a link that takes the account back,
   until the whole seconds it is kept for have passed.
   */
  lemma OwnerCanTakeBack(start: Site, events: seq<Event>, p: Pk)
    requires Inv(start)
    requires
      var site := Run(start, events);
      && p in site.rows && RecoveryAddress(site.rows[p], site.now) != ""
      && FirstLinkGood(site, site.rows[p].recoveryUntil.value)
    ensures CanTakeBack(Run(start, events), p)
  {
    RunKeepsInv(start, events);
    var site := Run(start, events);
    var link := KeptAddressHasUsableLink(site, p);
    UsableLinkTakesBack(site, link);
  }

  /** `link` was mailed to the address `p` keeps, in a second after the one its keeping began, and has not lapsed. */
  ghost predicate IsLaterNotice(site: Site, p: Pk, link: UndoLink)
    requires p in site.rows && site.rows[p].recoveryUntil.Some?
  {
    && link in site.undoLinks && link.user == p
    && NormalizedEmail(link.previous) == NormalizedEmail(site.rows[p].recoveryEmail)
    && !Lapsed(link.at, UNDO_TIMEOUT, site.now)
    && site.rows[p].recoveryUntil.value / SECOND < link.at / SECOND + UNDO_TIMEOUT
  }

  lemma LinkThatTakesBackIsUsable(site: Site, p: Pk, link: UndoLink)
    requires Inv(site) && p in site.rows && RecoveryAddress(site.rows[p], site.now) != ""
    requires link in site.undoLinks && link.user == p
    ensures UndoChange(site, link).outcome.Undone? ==> Usable(site, link)
  {
  }

  /** Past the whole seconds of the keeping, only a link signed in a later second is still good. */
  lemma UsableLinkIsFirstOrLater(site: Site, p: Pk, link: UndoLink)
    requires Inv(site) && p in site.rows && link.user == p && Usable(site, link)
    ensures FirstLinkGood(site, site.rows[p].recoveryUntil.value) || IsLaterNotice(site, p, link)
  {
    var until := site.rows[p].recoveryUntil.value;
    Distribute(link.at / SECOND, UNDO_TIMEOUT);
    SecondsGrow(link.at / SECOND + UNDO_TIMEOUT, until / SECOND);
  }

  lemma SecondsGrow(a: nat, b: nat)
    ensures a <= b ==> a * SECOND <= b * SECOND
  {
  }

  lemma LaterNoticeIsUsable(site: Site, p: Pk, link: UndoLink)
    requires Inv(site) && p in site.rows && RecoveryAddress(site.rows[p], site.now) != ""
    requires IsLaterNotice(site, p, link)
    ensures Usable(site, link)
  {
    var user := site.rows[p];
    assert LinkOut(site, p, user);
    var first :| && first in site.undoLinks && first.user == p && first.previous == user.recoveryEmail
                 && first.at + UNDO_TIMEOUT * SECOND == user.recoveryUntil.value && !IsSpent(user, first.at);
    WholeSecondsShift(first.at, UNDO_TIMEOUT);
    LaterSecondIsLater(first.at, link.at);
  }

  lemma LaterSecondIsLater(a: nat, b: nat)
    requires a / SECOND < b / SECOND
    ensures a < b
  {
    assert a / 1_000_000 < b / 1_000_000;
  }

  /**
   At the end of every run, the owner of a recovery address can take the account back exactly when the
   whole seconds it is kept for have not passed, or a later notice to it has not lapsed.
   */
  lemma OwnerCanTakeBackIff(start: Site, events: seq<Event>, p: Pk)
    requires Inv(start)
    requires var site := Run(start, events); p in site.rows && RecoveryAddress(site.rows[p], site.now) != ""
    ensures
      var site := Run(start, events);
      CanTakeBack(site, p) <==>
        FirstLinkGood(site, site.rows[p].recoveryUntil.value) || exists link :: IsLaterNotice(site, p, link)
  {
    RunKeepsInv(start, events);
    TakingBackIff(Run(start, events), p);
  }

  lemma TakingBackIff(site: Site, p: Pk)
    requires Inv(site) && p in site.rows && RecoveryAddress(site.rows[p], site.now) != ""
    ensures CanTakeBack(site, p) <==>
      FirstLinkGood(site, site.rows[p].recoveryUntil.value) || exists link :: IsLaterNotice(site, p, link)
  {
    var until := site.rows[p].recoveryUntil.value;
    if FirstLinkGood(site, until) {
      var link := KeptAddressHasUsableLink(site, p);
      UsableLinkTakesBack(site, link);
    } else if link :| IsLaterNotice(site, p, link) {
      LaterNoticeIsUsable(site, p, link);
      UsableLinkTakesBack(site, link);
    }
    if CanTakeBack(site, p) {
      var link :| link in site.undoLinks && link.user == p && UndoChange(site, link).outcome.Undone?;
      LinkThatTakesBackIsUsable(site, p, link);
      UsableLinkIsFirstOrLater(site, p, link);
    }
  }

  // --------------------------------------------------- what one step touches

  /**
   What every step but a completion, an undo and a new account does: it writes to `p` alone,
   leaves its recovery address as it was, and signs undo links to no address but the one
   kept for recovery, while one is kept.
   */
  ghost predicate Gentle(site: Site, after: Site, p: Pk) {
    && p in site.rows && p in after.rows
    && after.now == site.now
    && after.rows == site.rows[p := after.rows[p]]
    && var was := site.rows[p];
       var user := after.rows[p];
       && user.recoveryEmail == was.recoveryEmail
       && user.recoveryUntil == was.recoveryUntil
       && user.undoneAt == was.undoneAt
       && (user.password == was.password || user.password.hash == site.nextHash)
       && forall l :: l in after.undoLinks && l !in site.undoLinks ==>
            l.user == p && (RecoveryAddress(was, site.now) != "" ==> l.previous == was.recoveryEmail)
  }

  /** `user` is `was` with the guarded roles as they were, and active if it was. */
  ghost predicate Modest(was: Account, user: Account) {
    && user.isSuperuser == was.isSuperuser
    && user.roles * GUARDED_ROLES == was.roles * GUARDED_ROLES
    && (was.isActive ==> user.isActive)
  }

  /** Asking writes the pending address, and nothing else of the row. */
  lemma AskedRow(site: Site, actor: Actor, p: Pk, address: string)
    requires p in site.rows
    ensures AskedSite(site, actor, p, address).rows == site.rows[p := site.rows[p].(pendingEmail := address)]
  {
  }

  /** What a request leaves of the rows: as they were, or one with the address, written or pending. */
  lemma RequestRows(site: Site, actor: Actor, p: Pk, email: string, quiet: bool)
    requires p in site.rows
    ensures
      var reply := RequestChange(site, actor, p, email, quiet);
      match reply.outcome
      case Asked => reply.site.rows == site.rows[p := site.rows[p].(pendingEmail := Strip(email))]
      case DonorWritten => IsDonor(site.rows[p]) && reply.site.rows == site.rows[p := site.rows[p].(email := Strip(email))]
      case _ => reply.site == site
    ensures
      var outcome := RequestChange(site, actor, p, email, quiet).outcome;
      outcome == Asked || outcome == DonorWritten ==> MayEditProtected(site, actor, site.rows[p])
  {
    AskedRow(site, actor, p, Strip(email));
  }

  lemma AskedIsGentle(site: Site, actor: Actor, p: Pk, address: string)
    requires p in site.rows
    ensures Gentle(site, AskedSite(site, actor, p, address), p)
    ensures Modest(site.rows[p], AskedSite(site, actor, p, address).rows[p])
  {
    AskedRow(site, actor, p, address);
  }

  lemma RequestIsGentle(site: Site, actor: Actor, p: Pk, email: string, quiet: bool)
    requires p in site.rows
    ensures Gentle(site, RequestChange(site, actor, p, email, quiet).site, p)
    ensures Modest(site.rows[p], RequestChange(site, actor, p, email, quiet).site.rows[p])
  {
    AskedIsGentle(site, actor, p, Strip(email));
    var written := site.(rows := site.rows[p := site.rows[p].(email := Strip(email))]);
    assert Gentle(site, written, p) && Modest(site.rows[p], written.rows[p]);
    assert site.rows == site.rows[p := site.rows[p]];
  }

  lemma PasswordStepsAreGentle(site: Site, p: Pk, seen: nat)
    requires p in site.rows
    ensures Gentle(site, ReplacePassword(site, p, seen).site, p)
    ensures Gentle(site, ClearPassword(site, p), p)
    ensures Gentle(site, PasswordNotice(site, p), p)
    ensures Modest(site.rows[p], ReplacePassword(site, p, seen).site.rows[p])
    ensures Modest(site.rows[p], ClearPassword(site, p).rows[p])
    ensures Modest(site.rows[p], PasswordNotice(site, p).rows[p])
  {
    assert site.rows == site.rows[p := site.rows[p]];
  }

  lemma MailStepsAreGentle(site: Site, p: Pk, requestedBy: Option<Pk>, upgrade: Option<PersonKind>, invitation: bool)
    requires p in site.rows
    ensures Gentle(site, SendChangeLink(site, p, requestedBy), p)
    ensures Gentle(site, SendVerification(site, p, upgrade), p)
    ensures Gentle(site, SendPasswordLink(site, p, invitation), p)
    ensures Modest(site.rows[p], SendChangeLink(site, p, requestedBy).rows[p])
    ensures Modest(site.rows[p], SendVerification(site, p, upgrade).rows[p])
    ensures Modest(site.rows[p], SendPasswordLink(site, p, invitation).rows[p])
  {
    assert site.rows == site.rows[p := site.rows[p]];
  }

  lemma ProofsAreGentle(site: Site, p: Pk, address: string, kind: PersonKind)
    requires p in site.rows
    ensures Gentle(site, ConfirmAddress(site, p, address).site, p)
    ensures Modest(site.rows[p], ConfirmAddress(site, p, address).site.rows[p])
    ensures ConfirmAddress(site, p, address).site.rows[p].password == site.rows[p].password
    ensures Gentle(site, UpgradeDonor(site, p, kind), p)
    ensures Modest(site.rows[p], UpgradeDonor(site, p, kind).rows[p])
  {
    assert site.rows == site.rows[p := site.rows[p]];
  }

  /** Gentle steps one after the other are gentle together, when the password is drawn once at most. */
  lemma GentleTwice(site: Site, between: Site, after: Site, p: Pk)
    requires Gentle(site, between, p) && Gentle(between, after, p)
    requires after.rows[p].password == between.rows[p].password
    requires Modest(site.rows[p], between.rows[p]) && Modest(between.rows[p], after.rows[p])
    ensures Gentle(site, after, p) && Modest(site.rows[p], after.rows[p])
  {
    assert after.rows == site.rows[p := after.rows[p]];
  }

  lemma VerifyIsGentle(site: Site, link: VerifyLink, withPassword: bool)
    requires link.user in site.rows
    ensures Gentle(site, VerifyEmail(site, link, withPassword).site, link.user)
    ensures Modest(site.rows[link.user], VerifyEmail(site, link, withPassword).site.rows[link.user])
  {
    var p, user := link.user, site.rows[link.user];
    assert site.rows == site.rows[p := user];
    if VerifyHonored(site, link) {
      if !IsDonor(user) {
        ProofsAreGentle(site, p, user.email, Member);
      } else if withPassword {
        var upgraded := UpgradeDonor(site, p, link.upgrade.value);
        ProofsAreGentle(site, p, user.email, link.upgrade.value);
        ProofsAreGentle(upgraded, p, user.email, Member);
        GentleTwice(site, upgraded, ConfirmAddress(upgraded, p, user.email).site, p);
      }
    }
  }

  lemma ReopeningIsGentle(site: Site, p: Pk)
    requires p in site.rows
    ensures Gentle(site, Status.ReactivateOwn(site, p).site, p)
    ensures Modest(site.rows[p], Status.ReactivateOwn(site, p).site.rows[p])
    ensures Status.ReactivateOwn(site, p).site.rows[p].password == site.rows[p].password
  {
    assert site.rows == site.rows[p := site.rows[p]];
  }

  lemma ReopenedIsGentle(site: Site, p: Pk, hash: nat, email: string)
    requires p in site.rows
    ensures Gentle(site, Reopened(site, p, hash, email), p)
    ensures Modest(site.rows[p], Reopened(site, p, hash, email).rows[p])
  {
    PasswordStepsAreGentle(site, p, hash);
    var replaced := ReplacePassword(site, p, hash).site;
    ProofsAreGentle(replaced, p, email, Member);
    var confirmed := ConfirmAddress(replaced, p, email).site;
    GentleTwice(site, replaced, confirmed, p);
    ReopeningIsGentle(confirmed, p);
    GentleTwice(site, confirmed, Status.ReactivateOwn(confirmed, p).site, p);
  }

  /** What choosing a password through a link leaves of the row: chosen, confirmed, and open. */
  lemma ReopenedRow(site: Site, p: Pk)
    requires p in site.rows && !site.rows[p].reactivationBlocked
    ensures
      var was := site.rows[p];
      Reopened(site, p, was.password.hash, was.email) ==
        site.(rows := site.rows[p := ReopenedAccount(was, site.nextHash)], nextHash := site.nextHash + 1)
  {
    var was := site.rows[p];
    var replaced := ReplacePassword(site, p, was.password.hash).site;
    var confirmed := ConfirmAddress(replaced, p, was.email).site;
    assert confirmed.rows == site.rows[p := ReopenedAccount(was, site.nextHash).(isActive := was.isActive)];
  }

  function ReopenedAccount(was: Account, hash: nat): Account {
    was.(password := Password(hash, true), pendingEmail := "", isDemo := false, emailBounced := false,
         emailVerified := true, isActive := true)
  }

  /** So following a password link writes that row, and at most signs a notice. */
  lemma ResetRows(site: Site, link: ResetLink)
    requires ConfirmReset(site, link).outcome.PasswordChosen?
    ensures link.user in site.rows
    ensures ConfirmReset(site, link).site.rows
         == site.rows[link.user := ReopenedAccount(site.rows[link.user], site.nextHash)]
  {
    ReopenedRow(site, link.user);
    NoticeKeepsPassword(Reopened(site, link.user, link.hash, link.email), link.user);
  }

  lemma NoticeKeepsPassword(site: Site, p: Pk)
    requires p in site.rows
    ensures PasswordNotice(site, p).rows == site.rows
  {
  }

  lemma ResetIsGentle(site: Site, link: ResetLink)
    requires link.user in site.rows
    ensures Gentle(site, ConfirmReset(site, link).site, link.user)
    ensures Modest(site.rows[link.user], ConfirmReset(site, link).site.rows[link.user])
  {
    var p := link.user;
    assert site.rows == site.rows[p := site.rows[p]];
    if ResetHonored(site, link) && !site.rows[p].reactivationBlocked {
      var reopened := Reopened(site, p, link.hash, link.email);
      ReopenedIsGentle(site, p, link.hash, link.email);
      PasswordStepsAreGentle(reopened, p, 0);
      NoticeKeepsPassword(reopened, p);
      GentleTwice(site, reopened, PasswordNotice(reopened, p), p);
    }
  }

  lemma StatusStepIsGentle(site: Site, step: Step)
    requires IsStatusStep(step) && step.p in site.rows
    ensures Gentle(site, DoStatus(site, step), step.p)
  {
    assert site.rows == site.rows[step.p := site.rows[step.p]];
  }

  lemma StepIsGentle(site: Site, step: Step, p: Pk)
    requires Subject(step) == Some(p) && p in site.rows
    requires !step.Complete? && !step.Undo?
    ensures Gentle(site, Do(site, step), p)
    ensures !IsStatusStep(step) ==> Modest(site.rows[p], Do(site, step).rows[p])
  {
    match step
    case AskOwn(_, email) =>
      RequestIsGentle(site, Person(p), p, email, true);
      assert site.rows == site.rows[p := site.rows[p]];
    case AskFor(actor, _, email) => RequestIsGentle(site, actor, p, email, false);
    case Resend(_, requestedBy) => MailStepsAreGentle(site, p, requestedBy, None, false);
    case NewPassword(_, seen) => PasswordStepsAreGentle(site, p, seen);
    case RequirePassword(_) => PasswordStepsAreGentle(site, p, 0);
    case TellPasswordChanged(_) => PasswordStepsAreGentle(site, p, 0);
    case MailVerification(_, upgrade) => MailStepsAreGentle(site, p, None, upgrade, false);
    case MailPasswordLink(_, invitation) => MailStepsAreGentle(site, p, None, None, invitation);
    case Verify(link, withPassword) => VerifyIsGentle(site, link, withPassword);
    case Reset(link) => ResetIsGentle(site, link);
    case _ => StatusStepIsGentle(site, step);
  }

  /** A gentle step leaves every other account alone, and signs undo links for none. */
  lemma GentleLeavesOthers(site: Site, after: Site, p: Pk, q: Pk)
    requires Gentle(site, after, p) && q in site.rows && q != p
    ensures q in after.rows && after.rows[q] == site.rows[q]
    ensures forall l :: l in after.undoLinks && l !in site.undoLinks ==> l.user != q
  {
  }

  lemma LinksTouchTheirOwn(site: Site, change: ChangeLink, undo: UndoLink, q: Pk)
    requires q in site.rows
    ensures q != change.user ==>
              var after := CompleteChange(site, change).site;
              q in after.rows && after.rows[q] == site.rows[q]
    ensures forall l :: l in CompleteChange(site, change).site.undoLinks && l !in site.undoLinks ==> l.user == change.user
    ensures q != undo.user ==>
              var after := UndoChange(site, undo).site;
              q in after.rows && after.rows[q] == site.rows[q]
    ensures UndoChange(site, undo).site.undoLinks == site.undoLinks
  {
  }

  /** A step writes to its own account alone. */
  lemma OthersUntouched(site: Site, step: Step, q: Pk)
    requires Inv(site) && q in site.rows && Subject(step) != Some(q)
    ensures q in Do(site, step).rows && Do(site, step).rows[q] == site.rows[q]
    ensures forall l :: l in Do(site, step).undoLinks && l !in site.undoLinks ==> l.user != q
  {
    if Subject(step).Some? && Subject(step).value in site.rows {
      match step
      case Complete(link) => LinksTouchTheirOwn(site, link, UndoLink(link.user, "", "", 0), q);
      case Undo(link) => LinksTouchTheirOwn(site, ChangeLink(link.user, "", "", None, 0, 0), link, q);
      case Open(_, _, _) =>
      case _ =>
        StepIsGentle(site, step, Subject(step).value);
        GentleLeavesOthers(site, Do(site, step), Subject(step).value, q);
    } else if step.Open? {
      RegisterLeavesOthers(site, step.email, step.newKind, step.usable, q);
    }
  }

  lemma RegisterLeavesOthers(site: Site, email: string, kind: Kind, usable: bool, q: Pk)
    requires Inv(site) && q in site.rows
    ensures
      var after := Register(site, email, kind, usable);
      q in after.rows && after.rows[q] == site.rows[q] && after.undoLinks == site.undoLinks
  {
  }

  /** No step gives an account an address that belonged to another. */
  lemma {:induction false} NoStepStealsAnAddress(site: Site, step: Step, p: Pk, q: Pk, key: string)
    requires Inv(site) && UndonesPast(site)
    requires q in site.rows && Holds(site.rows[q], key, site.now)
    requires p in Do(site, step).rows && p != q
    ensures !Holds(Do(site, step).rows[p], key, site.now)
  {
    var after := Do(site, step);
    ClockStands(site, step);
    if Subject(step) == Some(q) {
      if p in site.rows {
        OthersUntouched(site, step, p);
        assert Apart(site.rows[p], site.rows[q], site.now);
      } else {
        NobodyAppears(site, step, p);
      }
    } else {
      OthersUntouched(site, step, q);
      DoKeepsInv(site, step);
      assert Apart(after.rows[p], after.rows[q], after.now);
    }
  }

  lemma NobodyAppears(site: Site, step: Step, p: Pk)
    requires Subject(step).Some?
    ensures p in Do(site, step).rows ==> p in site.rows
  {
    if Subject(step).value in site.rows {
      match step
      case Complete(link) =>
      case Undo(link) =>
      case Open(_, _, _) =>
      case _ => StepIsGentle(site, step, Subject(step).value);
    }
  }

  lemma ClockStands(site: Site, step: Step)
    ensures Do(site, step).now == site.now
  {
    if Subject(step).Some? && Subject(step).value in site.rows {
      match step
      case Complete(_) =>
      case Undo(_) =>
      case Open(_, _, _) =>
      case _ => StepIsGentle(site, step, Subject(step).value);
    }
  }

  /** Completing holds on to what was held a moment before, and to the new address; nothing lapsed revives. */
  lemma CompletingRevivesNothing(site: Site, link: ChangeLink, key: string)
    requires Inv(site) && CompleteChange(site, link).outcome == Moved
    ensures
      var was := site.rows[link.user];
      var now := CompleteChange(site, link).site.rows[link.user];
      && Lower(now.email) == Lower(was.pendingEmail)
      && (RecoveryLive(now, site.now) && Lower(now.recoveryEmail) == key ==> Holds(was, key, site.now))
      && (RecoveryAddress(was, site.now) != "" ==>
            now.recoveryEmail == was.recoveryEmail && now.recoveryUntil.value >= was.recoveryUntil.value)
      && (RecoveryAddress(was, site.now) == "" && was.emailVerified ==> now.recoveryEmail == was.email)
      && (RecoveryAddress(was, site.now) == "" && !was.emailVerified ==> now.recoveryUntil.None?)
  {
  }

  // ------------------------------------------- the reservation outlasts runs

  /** `step` is an undo link mailed to `recovery`, honored for `p`. */
  ghost predicate OwnersUndo(site: Site, step: Step, p: Pk, recovery: string) {
    && step.Undo? && step.undo.user == p
    && UndoHonored(site, step.undo)
    && NormalizedEmail(step.undo.previous) == NormalizedEmail(recovery)
  }

  /** Some event of the run is an undo the owner of `recovery` followed. */
  ghost predicate UndoneDuring(site: Site, events: seq<Event>, p: Pk, recovery: string)
    decreases |events|
  {
    events != [] &&
    (OwnersUndo(Tick(site, events[0].wait), events[0].step, p, recovery)
     || UndoneDuring(Apply(site, events[0]), events[1..], p, recovery))
  }

  /** `p` keeps `recovery` at least until `until`. */
  ghost predicate Reserved(site: Site, p: Pk, recovery: string, until: nat) {
    && p in site.rows && recovery != ""
    && site.rows[p].recoveryEmail == recovery
    && site.rows[p].recoveryUntil.Some? && until <= site.rows[p].recoveryUntil.value
  }

  /** Every undo link for `p` signed since `before` names `recovery`. */
  ghost predicate LinksName(before: Site, after: Site, p: Pk, recovery: string) {
    forall l :: l in after.undoLinks && l !in before.undoLinks && l.user == p ==> l.previous == recovery
  }

  lemma StepKeepsReservation(site: Site, step: Step, p: Pk, recovery: string, until: nat)
    requires Inv(site) && Reserved(site, p, recovery, until) && site.now < until
    requires !OwnersUndo(site, step, p, recovery)
    ensures Reserved(Do(site, step), p, recovery, until)
    ensures LinksName(site, Do(site, step), p, recovery)
  {
    if Subject(step) != Some(p) {
      OthersUntouched(site, step, p);
    } else {
      match step
      case Complete(_) =>
      case Undo(_) =>
      case Open(_, _, _) =>
      case _ => StepIsGentle(site, step, Subject(step).value);
    }
  }

  lemma {:induction false} ClockAdvances(site: Site, events: seq<Event>)
    ensures Run(site, events).now >= site.now + |events|
    decreases |events|
  {
    if events != [] {
      ClockStands(Tick(site, events[0].wait), events[0].step);
      ClockAdvances(Apply(site, events[0]), events[1..]);
    }
  }

  /**
   Until its time is up, only an undo its owner follows ends a reservation: every other run
   leaves it in place, only ever longer, and signs undo links to nobody else.
   */
  lemma {:induction false} ReservationOutlastsRuns(site: Site, events: seq<Event>, p: Pk, recovery: string, until: nat)
    requires Inv(site) && Reserved(site, p, recovery, until)
    requires Run(site, events).now < until
    ensures
      || UndoneDuring(site, events, p, recovery)
      || (Reserved(Run(site, events), p, recovery, until) && LinksName(site, Run(site, events), p, recovery))
    decreases |events|
  {
    if events != [] {
      var event := events[0];
      var ticked := Tick(site, event.wait);
      TickKeepsInv(site, event.wait);
      DoKeepsInv(ticked, event.step);
      ClockAdvances(Apply(site, event), events[1..]);
      ClockStands(ticked, event.step);
      if !OwnersUndo(ticked, event.step, p, recovery) {
        StepKeepsReservation(ticked, event.step, p, recovery, until);
        ReservationOutlastsRuns(Apply(site, event), events[1..], p, recovery, until);
      }
    }
  }

  /** While a recovery address is kept, its account cannot ask for another address itself. */
  lemma OwnRequestRefused(site: Site, p: Pk, email: string, quiet: bool)
    requires Inv(site) && p in site.rows && RecoveryAddress(site.rows[p], site.now) != ""
    requires NormalizedEmail(email) != NormalizedEmail(site.rows[p].email)
    ensures RequestChange(site, Person(p), p, email, quiet)
         == Reply(RecentChange(site.rows[p].recoveryUntil.value), site)
  {
    assert AccountRoles(site.rows[p]) - EffectiveRoles(site, Person(p)) == {};
  }

  /** So while a reservation stands, whatever else has happened, its account's own requests change nothing. */
  lemma OwnRequestsAreHeldOff(site: Site, events: seq<Event>, p: Pk, recovery: string, until: nat, email: string)
    requires Inv(site) && Reserved(site, p, recovery, until) && Run(site, events).now < until
    requires !UndoneDuring(site, events, p, recovery)
    ensures Do(Run(site, events), AskOwn(p, email)) == Run(site, events)
  {
    ReservationOutlastsRuns(site, events, p, recovery, until);
    RunKeepsInv(site, events);
    var later := Run(site, events);
    if NormalizedEmail(email) != NormalizedEmail(later.rows[p].email) {
      OwnRequestRefused(later, p, email, true);
    } else {
      NormalizedOfStripped(email);
    }
  }

  lemma NormalizedOfStripped(s: string)
    ensures NormalizedEmail(Strip(s)) == NormalizedEmail(s)
  {
  }

  // ---------------------------------------------------- what an undo spends

  /** Passwords and undo marks only move forward. */
  ghost predicate MovesOn(before: Site, after: Site, p: Pk) {
    && p in before.rows && p in after.rows
    && before.rows[p].password.hash <= after.rows[p].password.hash
    && (before.rows[p].undoneAt.Some? ==>
          after.rows[p].undoneAt.Some? && before.rows[p].undoneAt.value <= after.rows[p].undoneAt.value)
  }

  lemma CompleteMovesOn(site: Site, link: ChangeLink)
    requires Inv(site) && link.user in site.rows
    ensures MovesOn(site, CompleteChange(site, link).site, link.user)
  {
  }

  lemma UndoMovesOn(site: Site, link: UndoLink)
    requires Inv(site) && link.user in site.rows
    ensures MovesOn(site, UndoChange(site, link).site, link.user)
  {
    if UndoHonored(site, link) {
      assert Sound(site.rows[link.user], site.now, site.nextHash);
      assert UndoChange(site, link).site.rows[link.user].undoneAt == Some(site.now);
    }
  }

  lemma StepMovesOn(site: Site, step: Step, p: Pk)
    requires Inv(site) && p in site.rows
    ensures MovesOn(site, Do(site, step), p)
  {
    if Subject(step) != Some(p) {
      OthersUntouched(site, step, p);
    } else if step.Complete? {
      CompleteMovesOn(site, step.change);
    } else if step.Undo? {
      UndoMovesOn(site, step.undo);
    } else {
      StepIsGentle(site, step, Subject(step).value);
      assert Sound(site.rows[p], site.now, site.nextHash);
    }
  }

  lemma {:induction false} RunMovesOn(site: Site, events: seq<Event>, p: Pk)
    requires Inv(site) && p in site.rows
    ensures MovesOn(site, Run(site, events), p)
    decreases |events|
  {
    if events != [] {
      var ticked := Tick(site, events[0].wait);
      TickKeepsInv(site, events[0].wait);
      DoKeepsInv(ticked, events[0].step);
      StepMovesOn(ticked, events[0].step, p);
      RunMovesOn(Apply(site, events[0]), events[1..], p);
    }
  }

  /** After an undo, no undo link signed up to that moment is ever honored again. */
  lemma {:induction false} UndoSpendsUndoLinks(site: Site, link: UndoLink, events: seq<Event>, earlier: UndoLink)
    requires Inv(site) && UndonesPast(site) && UndoHonored(site, link)
    requires earlier.user == link.user && earlier.at <= site.now
    ensures
      var later := Run(UndoChange(site, link).site, events);
      UndoChange(later, earlier) == Reply(UndoInvalid, later)
  {
    UndoKeepsInv(site, link);
    RunMovesOn(UndoChange(site, link).site, events, link.user);
  }

  /** The steps that give an account another password, or take its password away. */
  ghost predicate DrawsPassword(site: Site, step: Step, p: Pk) {
    && p in site.rows
    && match step
       case Undo(link) => link.user == p && UndoHonored(site, link)
       case NewPassword(q, seen) => q == p && site.rows[p].password.hash == seen
       case RequirePassword(q) => q == p
       case Reset(link) => link.user == p && ConfirmReset(site, link).outcome.PasswordChosen?
       case _ => false
  }

  lemma ResetDrawsPassword(site: Site, link: ResetLink)
    requires link.user in site.rows && ConfirmReset(site, link).outcome.PasswordChosen?
    ensures
      var after := ConfirmReset(site, link).site;
      link.user in after.rows && after.rows[link.user].password == Password(site.nextHash, true)
  {
    NoticeKeepsPassword(Reopened(site, link.user, link.hash, link.email), link.user);
  }

  lemma DrawnPasswordIsNew(site: Site, step: Step, p: Pk)
    requires Inv(site) && DrawsPassword(site, step, p)
    ensures p in Do(site, step).rows && Do(site, step).rows[p].password.hash == site.nextHash
  {
    match step
    case Undo(link) => assert Do(site, step) == UndoChange(site, link).site;
    case NewPassword(q, seen) => assert Do(site, step) == ReplacePassword(site, q, seen).site;
    case RequirePassword(q) => assert Do(site, step) == ClearPassword(site, q);
    case Reset(link) => ResetDrawsPassword(site, link);
  }

  /** A change link signed over a password since replaced does nothing. */
  lemma StaleLinkDoesNothing(site: Site, link: ChangeLink)
    requires link.user in site.rows ==> link.hash != site.rows[link.user].password.hash
    ensures CompleteChange(site, link).outcome != Moved
    ensures CompleteChange(site, link).site == site
  {
  }

  /** A password link works once: whatever happens next, it is refused ever after. */
  lemma ResetLinkWorksOnce(site: Site, link: ResetLink, events: seq<Event>)
    requires Inv(site) && UndonesPast(site) && link.user in site.rows
    requires ConfirmReset(site, link).outcome.PasswordChosen?
    ensures
      var later := Run(Do(site, Reset(link)), events);
      ConfirmReset(later, link) == Reply(ResetInvalid, later)
  {
    DoKeepsInv(site, Reset(link));
    DrawnPasswordIsNew(site, Reset(link), link.user);
    assert Sound(site.rows[link.user], site.now, site.nextHash);
    RunMovesOn(Do(site, Reset(link)), events, link.user);
  }

  /** After an undo or a new password, no change link signed before it ever moves the account. */
  lemma NewPasswordSpendsChangeLinks(site: Site, step: Step, p: Pk, events: seq<Event>, link: ChangeLink)
    requires Inv(site) && UndonesPast(site) && DrawsPassword(site, step, p)
    requires link in site.changeLinks && link.user == p
    ensures
      var later := Run(Do(site, step), events);
      && CompleteChange(later, link).outcome != Moved
      && CompleteChange(later, link).site == later
  {
    DoKeepsInv(site, step);
    DrawnPasswordIsNew(site, step, p);
    RunMovesOn(Do(site, step), events, p);
    StaleLinkDoesNothing(Run(Do(site, step), events), link);
  }

  // --------------------------------- the one request that may break the rule

  /**
   A donor's address is written at once.  Asked quietly, that keeps addresses unique exactly
   when no other account keeps the address for recovery.
   */
  lemma QuietDonorRequest(site: Site, actor: Actor, p: Pk, email: string)
    requires Inv(site) && p in site.rows && IsDonor(site.rows[p])
    requires RequestChange(site, actor, p, email, true).outcome == DonorWritten
    ensures
      AddressesUnique(RequestChange(site, actor, p, email, true).site) <==>
      forall q :: q in site.rows && q != p && RecoveryLive(site.rows[q], site.now) ==>
        Lower(site.rows[q].recoveryEmail) != NormalizedEmail(email)
  {
    var after := RequestChange(site, actor, p, email, true).site;
    var key := NormalizedEmail(email);
    if q :| q in site.rows && q != p && RecoveryLive(site.rows[q], site.now)
            && Lower(site.rows[q].recoveryEmail) == key {
      assert Holds(after.rows[p], key, after.now) && Holds(after.rows[q], key, after.now);
      assert !Apart(after.rows[p], after.rows[q], after.now);
    } else {
      assert !AddressTaken(site, Strip(email), Some(p));
      assert RequestChange(site, actor, p, email, false) == RequestChange(site, actor, p, email, true);
      RequestKeepsInv(site, actor, p, email, false);
    }
  }
}
