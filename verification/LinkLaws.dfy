/** What a mailed link does when it is followed: in time, it does what it was mailed for. */
module LinkLaws {
  import opened Outcomes
  import opened Text
  import opened Accounts
  import opened EmailChange
  import opened MailedLinks
  import opened AccountRuns
  import Address = AddressLaws
  import Marks = MarkLaws
  import Steps = RecoveryLaws

  // ------------------------------------------------------ asking for a change

  /** When a request goes ahead, and that it leaves everything alone when it does not. */
  lemma RequestGoesAheadIff(site: Site, actor: Actor, p: Pk, email: string, quiet: bool)
    requires Inv(site) && p in site.rows
    ensures
      var target := site.rows[p];
      var reply := RequestChange(site, actor, p, email, quiet);
      var allowed :=
        && NormalizedEmail(email) != NormalizedEmail(target.email)
        && MayEditProtected(site, actor, target)
        && !(actor == Person(p) && RecoveryAddress(target, site.now) != "")
        && (quiet || !AddressTaken(site, email, Some(p)));
      && (reply.outcome == Asked <==> allowed && !IsDonor(target))
      && (reply.outcome == DonorWritten <==> allowed && IsDonor(target) && !AddressCollides(site, email, p))
      && (reply.outcome != Asked && reply.outcome != DonorWritten ==> reply.site == site)
  {
    Steps.NormalizedOfStripped(email);
    assert AddressTaken(site, Strip(email), Some(p)) == AddressTaken(site, email, Some(p));
    assert AddressCollides(site, Strip(email), p) == AddressCollides(site, email, p);
  }

  /** And what a refused request says: the first of its reasons, in this order. */
  lemma RequestRefusalSays(site: Site, actor: Actor, p: Pk, email: string, quiet: bool)
    requires Inv(site) && p in site.rows
    ensures
      var target := site.rows[p];
      var outcome := RequestChange(site, actor, p, email, quiet).outcome;
      var same := NormalizedEmail(email) == NormalizedEmail(target.email);
      var kept := actor == Person(p) && RecoveryAddress(target, site.now) != "";
      && (outcome == SameAddress <==> same)
      && (outcome == RolesNotHeld <==> !same && !MayEditProtected(site, actor, target))
      && (outcome.RecentChange? <==> !same && MayEditProtected(site, actor, target) && kept)
      && (outcome.RecentChange? ==> target.recoveryUntil == Some(outcome.until))
      && (outcome == AskedForTaken <==>
            !same && MayEditProtected(site, actor, target) && !kept && !quiet && AddressTaken(site, email, Some(p)))
  {
    Steps.NormalizedOfStripped(email);
    assert AddressTaken(site, Strip(email), Some(p)) == AddressTaken(site, email, Some(p));
  }

  /** Every change link of `site` was signed before this moment. */
  ghost predicate SignedBefore(site: Site) {
    forall l :: l in site.changeLinks ==> l.at < site.now
  }

  lemma TickMovesOn(site: Site, wait: nat)
    requires Inv(site)
    ensures SignedBefore(Tick(site, wait))
  {
  }

  /** The account `p` may still be moved by a link signed at `at` to what was pending on `asked`. */
  ghost predicate StillAsked(asked: Site, later: Site, p: Pk, at: nat) {
    && p in asked.rows && p in later.rows
    && var was, user := asked.rows[p], later.rows[p];
       && !Lapsed(at, later.verificationTimeout, later.now) && user.isActive
       && NormalizedEmail(user.email) == NormalizedEmail(was.email)
       && NormalizedEmail(user.pendingEmail) == NormalizedEmail(was.pendingEmail)
       && user.password.hash == was.password.hash
       && !AddressTaken(later, user.pendingEmail, Some(p))
  }

  /** Following `link` moves its account to the address pending for it, verified, with nothing pending any more. */
  ghost predicate Moves(site: Site, link: ChangeLink) {
    var reply := CompleteChange(site, link);
    && reply.outcome == Moved
    && link.user in site.rows && link.user in reply.site.rows
    && var was, user := site.rows[link.user], reply.site.rows[link.user];
       && user.email == was.pendingEmail && user.pendingEmail == ""
       && user.emailVerified && !user.emailBounced
       && user.password == was.password && user.isActive && !user.isDemo
       && user.roles == was.roles && user.isSuperuser == was.isSuperuser && user.kind == was.kind
  }

  ghost predicate MovesIff(asked: Site, link: ChangeLink, events: seq<Event>) {
    var later := Run(asked, events);
    && (Moves(later, link) <==> StillAsked(asked, later, link.user, link.at))
    && (CompleteChange(later, link).outcome == Moved ==> Moves(later, link))
  }

  lemma LinkMovesIff(asked: Site, link: ChangeLink, events: seq<Event>)
    requires Inv(asked) && link in asked.changeLinks && link.user in asked.rows
    requires asked.rows[link.user].pendingEmail != ""
    requires link.email == NormalizedEmail(asked.rows[link.user].email)
    requires link.changeTo == NormalizedEmail(asked.rows[link.user].pendingEmail)
    requires link.hash == asked.rows[link.user].password.hash && link.email != link.changeTo
    ensures MovesIff(asked, link, events)
  {
    Marks.RunGrowsLinks(asked, events);
    Steps.RunMovesOn(asked, events, link.user);
  }

  /** What asking signs: a link over the row as it then is, when the address is free; otherwise none. */
  lemma AskedLinks(site: Site, actor: Actor, p: Pk, email: string, quiet: bool)
    requires p in site.rows && RequestChange(site, actor, p, email, quiet).outcome == Asked
    ensures
      var asked := RequestChange(site, actor, p, email, quiet).site;
      && asked.rows == site.rows[p := site.rows[p].(pendingEmail := Strip(email))]
      && (AddressTaken(site, email, Some(p)) || Strip(email) == "" ==> asked.changeLinks == site.changeLinks)
      && (!AddressTaken(site, email, Some(p)) && Strip(email) != "" ==>
            ChangeLink(p, NormalizedEmail(site.rows[p].email), NormalizedEmail(email),
                       if actor.Person? then Some(actor.pk) else None, site.rows[p].password.hash, site.now)
              in asked.changeLinks)
  {
    Steps.RequestRows(site, actor, p, email, quiet);
    Steps.NormalizedOfStripped(email);
    var pending := site.(rows := site.rows[p := site.rows[p].(pendingEmail := Strip(email))]);
    SameTaken(site, pending, email, p);
  }

  lemma SameTaken(site: Site, pending: Site, email: string, p: Pk)
    requires p in site.rows && pending.now == site.now
    requires pending.rows == site.rows[p := site.rows[p].(pendingEmail := Strip(email))]
    ensures AddressTaken(pending, Strip(email), Some(p)) == AddressTaken(site, email, Some(p))
  {
    Steps.NormalizedOfStripped(email);
    assert forall q :: q in site.rows && q != p ==> pending.rows[q] == site.rows[q];
  }

  /**
   A change asked for to a free address can be completed: a link is signed for it then, and after every run
   following it moves the account to that address, verified, exactly while the link is in date, the account is
   open, its row still holds the addresses and the password it then held, and the address is still free.
   */
  lemma AskedChangeCompletes(site: Site, actor: Actor, p: Pk, email: string, quiet: bool) returns (link: ChangeLink)
    requires Inv(site) && p in site.rows && RequestChange(site, actor, p, email, quiet).outcome == Asked
    requires !AddressTaken(site, email, Some(p)) && Strip(email) != ""
    ensures
      var asked := RequestChange(site, actor, p, email, quiet).site;
      && link in asked.changeLinks && (SignedBefore(site) ==> link !in site.changeLinks)
      && link.user == p && link.at == site.now
      && p in asked.rows && asked.rows[p].pendingEmail == Strip(email)
      && forall events :: MovesIff(asked, link, events)
  {
    var asked := RequestChange(site, actor, p, email, quiet).site;
    AskedLinks(site, actor, p, email, quiet);
    link := ChangeLink(p, NormalizedEmail(site.rows[p].email), NormalizedEmail(email),
                       if actor.Person? then Some(actor.pk) else None, site.rows[p].password.hash, site.now);
    RequestGoesAheadIff(site, actor, p, email, quiet);
    Address.RequestKeepsInv(site, actor, p, email, quiet);
    Steps.NormalizedOfStripped(email);
    forall events ensures MovesIff(asked, link, events) {
      LinkMovesIff(asked, link, events);
    }
  }

  /** Nobody is mailed a link to move to an address that is taken. */
  lemma TakenAddressGetsNoLink(site: Site, actor: Actor, p: Pk, email: string, quiet: bool)
    requires p in site.rows && AddressTaken(site, email, Some(p))
    ensures RequestChange(site, actor, p, email, quiet).site.changeLinks == site.changeLinks
  {
    if RequestChange(site, actor, p, email, quiet).outcome == Asked {
      AskedLinks(site, actor, p, email, quiet);
    }
  }

  /** Asking for the link again signs another that does the same. */
  lemma ResentLinkMoves(site: Site, p: Pk, requestedBy: Option<Pk>) returns (link: ChangeLink)
    requires Inv(site) && p in site.rows && site.rows[p].pendingEmail != ""
    requires NormalizedEmail(site.rows[p].pendingEmail) != NormalizedEmail(site.rows[p].email)
    requires !AddressTaken(site, site.rows[p].pendingEmail, Some(p))
    ensures
      var sent := SendChangeLink(site, p, requestedBy);
      && link in sent.changeLinks && (SignedBefore(site) ==> link !in site.changeLinks)
      && link.user == p && link.at == site.now
      && forall events :: MovesIff(sent, link, events)
  {
    var sent := SendChangeLink(site, p, requestedBy);
    link := ChangeLinkFor(site, p, requestedBy);
    Address.SendChangeLinkKeepsInv(site, p, requestedBy);
    forall events ensures MovesIff(sent, link, events) {
      LinkMovesIff(sent, link, events);
    }
  }

  /** Following a link again, once it has moved the account, changes nothing more. */
  lemma CompletedLinkAgain(site: Site, link: ChangeLink, wait: nat)
    requires Inv(site) && CompleteChange(site, link).outcome == Moved
    ensures
      var later := Tick(CompleteChange(site, link).site, wait);
      CompleteChange(later, link) ==
        Reply(if Lapsed(link.at, site.verificationTimeout, later.now) then LinkInvalid else AlreadyMoved, later)
  {
  }

  // ------------------------------------------------------------------ undoing

  /** When an undo link works: in date, newer than any undo, and to no address but a live recovery address, if there is one. */
  lemma UndoWorksIff(site: Site, link: UndoLink)
    requires Inv(site)
    ensures UndoChange(site, link).outcome.Undone? <==>
      && link in site.undoLinks && !Lapsed(link.at, UNDO_TIMEOUT, site.now)
      && link.user in site.rows && !IsDonor(site.rows[link.user])
      && var user := site.rows[link.user];
         && (user.undoneAt.Some? ==> user.undoneAt.value < link.at)
         && (RecoveryLive(user, site.now) ==> NormalizedEmail(link.previous) == NormalizedEmail(user.recoveryEmail))
    ensures !UndoChange(site, link).outcome.Undone? ==> UndoChange(site, link).site == site
  {
    if link.user in site.rows {
      assert Sound(site.rows[link.user], site.now, site.nextHash);
    }
  }

  /** The account is secured: nothing pending, no recovery address, and no password anybody knows. */
  ghost predicate Secured(site: Site, was: Account, user: Account) {
    && user.pendingEmail == "" && user.recoveryEmail == "" && user.recoveryUntil.None?
    && !user.password.usable && user.password.hash == site.nextHash
    && user.undoneAt == Some(site.now)
    && user.roles == was.roles && user.isSuperuser == was.isSuperuser && user.kind == was.kind
  }

  /**
   What an undo leaves: the account secured, with the link's address, put back and verified, with the one it
   had when that is the same, or closed when the link's belongs to another; and nobody else touched.
   */
  lemma UndoLeaves(site: Site, link: UndoLink)
    requires Inv(site) && UndoChange(site, link).outcome.Undone?
    ensures
      var reply := UndoChange(site, link);
      && link.user in site.rows && link.user in reply.site.rows
      && reply.site.rows == site.rows[link.user := reply.site.rows[link.user]]
      && var was, user := site.rows[link.user], reply.site.rows[link.user];
         var same := NormalizedEmail(was.email) == NormalizedEmail(link.previous);
         var taken := AddressTaken(site, link.previous, Some(link.user));
         && Secured(site, was, user)
         && (same ==> reply.outcome == Undone(false, false)
                      && user.email == was.email && user.emailVerified == was.emailVerified)
         && (!same && !taken ==> reply.outcome == Undone(true, false)
                                 && user.email == link.previous && user.emailVerified && !user.emailBounced)
         && (!same && taken ==> reply.outcome == Undone(false, true) && user.email == was.email
                                && !user.isActive && user.reactivationBlocked)
         && (same || !taken ==> user.isActive == was.isActive && user.reactivationBlocked == was.reactivationBlocked)
  {
  }

  /** Who is told of a change: the recovery address kept, or else a verified own address. */
  function ToldOf(user: Account, now: nat): string {
    if RecoveryLive(user, now) then user.recoveryEmail else if user.emailVerified then user.email else ""
  }

  lemma NoticeGoesTo(user: Account, now: nat)
    requires user.recoveryUntil.Some? <==> user.recoveryEmail != ""
    ensures NoticeAddress(user, now) == ToldOf(user, now)
  {
  }

  lemma AskedUndoLinks(site: Site, actor: Actor, p: Pk, address: string)
    requires p in site.rows
    ensures AskedSite(site, actor, p, address).undoLinks == site.undoLinks +
      var told := NoticeAddress(site.rows[p], site.now); if told == "" then {} else {UndoLink(p, told, address, site.now)}
  {
  }

  /** Asking mails one undo link, to whom `ToldOf` says, or none when that is nobody. */
  lemma WhoIsToldOfAsking(site: Site, actor: Actor, p: Pk, email: string, quiet: bool)
    requires Inv(site) && p in site.rows && RequestChange(site, actor, p, email, quiet).outcome == Asked
    ensures RequestChange(site, actor, p, email, quiet).site.undoLinks == site.undoLinks +
      var told := ToldOf(site.rows[p], site.now); if told == "" then {} else {UndoLink(p, told, Strip(email), site.now)}
  {
    assert Sound(site.rows[p], site.now, site.nextHash);
    NoticeGoesTo(site.rows[p], site.now);
    AskedUndoLinks(site, actor, p, Strip(email));
  }

  // ------------------------------------- a notice can always be acted upon

  /** `p` is an ordinary account with a verified address. */
  ghost predicate Footed(site: Site, p: Pk) {
    p in site.rows && !IsDonor(site.rows[p]) && site.rows[p].emailVerified
  }

  lemma AskingKeepsFooting(site: Site, actor: Actor, p: Pk, email: string, quiet: bool)
    requires Footed(site, p)
    ensures var after := RequestChange(site, actor, p, email, quiet).site;
      Footed(after, p) && after.rows[p].email == site.rows[p].email
  {
    Steps.RequestRows(site, actor, p, email, quiet);
  }

  lemma VerifyingKeepsFooting(site: Site, link: VerifyLink, withPassword: bool)
    requires Footed(site, link.user)
    ensures var after := VerifyEmail(site, link, withPassword).site;
      Footed(after, link.user) && after.rows[link.user].email == site.rows[link.user].email
  {
  }

  lemma ResettingKeepsFooting(site: Site, link: ResetLink)
    requires Footed(site, link.user)
    ensures var after := ConfirmReset(site, link).site;
      Footed(after, link.user) && after.rows[link.user].email == site.rows[link.user].email
  {
    if ConfirmReset(site, link).outcome.PasswordChosen? {
      Steps.ResetRows(site, link);
    }
  }

  /** Only completing a change and undoing one move a verified account's address, and none leaves it unverified. */
  lemma StepKeepsFooting(site: Site, step: Step, p: Pk)
    requires Inv(site) && Footed(site, p)
    requires Subject(step) == Some(p) ==> !step.Complete? && !step.Undo?
    ensures Footed(Do(site, step), p) && Do(site, step).rows[p].email == site.rows[p].email
  {
    if Subject(step) != Some(p) {
      Steps.OthersUntouched(site, step, p);
    } else if IsStatusStep(step) {
      Marks.StatusStepKeepsMark(site, step);
    } else if step.AskOwn? {
      AskingKeepsFooting(site, Person(p), p, step.email, true);
      assert Do(site, step) == RequestChange(site, Person(p), p, step.email, true).site;
    } else if step.AskFor? {
      AskingKeepsFooting(site, step.actor, p, step.email, false);
      assert Do(site, step) == RequestChange(site, step.actor, p, step.email, false).site;
    } else if step.Verify? {
      VerifyingKeepsFooting(site, step.verification, step.withPassword);
      assert Do(site, step) == VerifyEmail(site, step.verification, step.withPassword).site;
    } else if step.Reset? {
      ResettingKeepsFooting(site, step.reset);
      assert Do(site, step) == ConfirmReset(site, step.reset).site;
    } else {
      Marks.OtherStepsKeepMark(site, step, p);
    }
  }

  /** Seven days after `at`, in ticks. */
  function WeekAfter(at: nat): nat { at + UNDO_TIMEOUT * SECOND }

  /**
   The account has moved nowhere, or keeps `own` for recovery longer than a link signed at `at` is in date;
   nothing was undone since `mark`.
   */
  ghost predicate Watched(site: Site, p: Pk, own: string, at: nat, mark: Option<nat>) {
    && Footed(site, p) && own != "" && at <= site.now
    && site.rows[p].undoneAt == mark
    && ((site.rows[p].email == own && RecoveryAddress(site.rows[p], site.now) == "")
        || Steps.Reserved(site, p, own, WeekAfter(at) + 1))
  }

  lemma CompletingKeepsWatch(site: Site, link: ChangeLink, own: string, at: nat, mark: Option<nat>)
    requires Inv(site) && Watched(site, link.user, own, at, mark) && at < site.now <= WeekAfter(at)
    ensures Watched(CompleteChange(site, link).site, link.user, own, at, mark)
  {
  }

  lemma UndoSetsMark(site: Site, link: UndoLink)
    requires Inv(site) && UndonesPast(site) && link.user in site.rows
    requires UndoChange(site, link).site.rows[link.user].undoneAt == site.rows[link.user].undoneAt
    ensures UndoChange(site, link).site == site
  {
  }

  lemma StepKeepsWatch(site: Site, step: Step, p: Pk, own: string, at: nat, mark: Option<nat>)
    requires Inv(site) && UndonesPast(site) && Watched(site, p, own, at, mark) && at < site.now <= WeekAfter(at)
    requires p in Do(site, step).rows && Do(site, step).rows[p].undoneAt == mark
    ensures Watched(Do(site, step), p, own, at, mark)
  {
    Steps.ClockStands(site, step);
    if Subject(step) == Some(p) && step.Complete? {
      CompletingKeepsWatch(site, step.change, own, at, mark);
    } else if Subject(step) == Some(p) && step.Undo? {
      UndoSetsMark(site, step.undo);
    } else {
      StepKeepsFooting(site, step, p);
      if Subject(step) != Some(p) {
        Steps.OthersUntouched(site, step, p);
      } else {
        Steps.StepIsGentle(site, step, p);
      }
    }
  }

  lemma TickKeepsWatch(site: Site, wait: nat, p: Pk, own: string, at: nat, mark: Option<nat>)
    requires Inv(site) && Watched(site, p, own, at, mark)
    ensures Watched(Tick(site, wait), p, own, at, mark)
  {
  }

  lemma EventKeepsWatch(site: Site, event: Event, p: Pk, own: string, at: nat, mark: Option<nat>)
    requires Inv(site) && Watched(site, p, own, at, mark) && Apply(site, event).now <= WeekAfter(at)
    requires p in Apply(site, event).rows && Apply(site, event).rows[p].undoneAt == mark
    ensures Inv(Apply(site, event)) && Watched(Apply(site, event), p, own, at, mark)
  {
    var ticked := Tick(site, event.wait);
    TickKeepsInv(site, event.wait);
    Address.DoKeepsInv(ticked, event.step);
    TickKeepsWatch(site, event.wait, p, own, at, mark);
    Steps.ClockStands(ticked, event.step);
    StepKeepsWatch(ticked, event.step, p, own, at, mark);
  }

  /** A mark that is the same before and after is the same in between. */
  lemma MarkStands(before: Site, between: Site, later: Site, p: Pk)
    requires Steps.MovesOn(before, between, p) && Steps.MovesOn(between, later, p)
    requires later.rows[p].undoneAt == before.rows[p].undoneAt
    ensures between.rows[p].undoneAt == before.rows[p].undoneAt
  {
  }

  lemma EventMovesOn(site: Site, event: Event, p: Pk)
    requires Inv(site) && p in site.rows
    ensures Inv(Apply(site, event)) && Steps.MovesOn(site, Apply(site, event), p)
  {
    var ticked := Tick(site, event.wait);
    TickKeepsInv(site, event.wait);
    Address.DoKeepsInv(ticked, event.step);
    Steps.StepMovesOn(ticked, event.step, p);
  }

  lemma {:induction false} RunKeepsWatch(site: Site, events: seq<Event>, later: Site, p: Pk, own: string, at: nat,
                                         mark: Option<nat>)
    requires Inv(site) && Watched(site, p, own, at, mark)
    requires later == Run(site, events) && later.now <= WeekAfter(at)
    requires p in later.rows && later.rows[p].undoneAt == mark
    ensures Watched(later, p, own, at, mark)
    decreases |events|
  {
    if events != [] {
      var next := Apply(site, events[0]);
      EventMovesOn(site, events[0], p);
      Steps.RunMovesOn(next, events[1..], p);
      Steps.ClockAdvances(next, events[1..]);
      MarkStands(site, next, later, p);
      EventKeepsWatch(site, events[0], p, own, at, mark);
      RunKeepsWatch(Apply(site, events[0]), events[1..], later, p, own, at, mark);
    }
  }

  lemma LinkInDateIsWithinAWeek(at: nat, now: nat)
    requires !Lapsed(at, UNDO_TIMEOUT, now)
    ensures now <= WeekAfter(at)
  {
    assert at / 1_000_000 * 1_000_000 <= at;
  }

  /** A notice to the account's own address is signed when a change is asked for, nothing being kept for recovery. */
  lemma AskedNotice(site: Site, actor: Actor, p: Pk, email: string, quiet: bool)
    requires Inv(site) && Footed(site, p) && site.rows[p].email != "" && RecoveryAddress(site.rows[p], site.now) == ""
    requires RequestChange(site, actor, p, email, quiet).outcome == Asked
    ensures
      var asked := RequestChange(site, actor, p, email, quiet).site;
      && UndoLink(p, site.rows[p].email, Strip(email), site.now) in asked.undoLinks
      && Inv(asked) && Watched(asked, p, site.rows[p].email, site.now, site.rows[p].undoneAt)
  {
    Address.RequestKeepsInv(site, actor, p, email, quiet);
    Steps.RequestRows(site, actor, p, email, quiet);
  }

  /** A notice of a change under watch still works, and puts its address back. */
  lemma WatchedLinkWorks(site: Site, p: Pk, own: string, link: UndoLink, mark: Option<nat>)
    requires Inv(site) && Watched(site, p, own, link.at, mark) && (mark.Some? ==> mark.value < link.at)
    requires link in site.undoLinks && link.user == p && link.previous == own
    requires !Lapsed(link.at, UNDO_TIMEOUT, site.now)
    ensures var reply := UndoChange(site, link);
      && reply.outcome.Undone? && !reply.outcome.taken
      && p in reply.site.rows && Steps.TakenBack(reply.site.rows[p], own)
  {
    LinkInDateIsWithinAWeek(link.at, site.now);
    if RecoveryAddress(site.rows[p], site.now) != "" {
      Steps.UsableLinkTakesBack(site, link);
    }
  }

  /**
   A verified account's owner is mailed a link at the address it then has, which ends the change: after every
   run in which nothing was undone, moved by now or not, the link puts that address back while it is in date,
   and no link signed before ever moves the account again.
   */
  lemma AskedChangeCanBeUndone(site: Site, actor: Actor, p: Pk, email: string, quiet: bool) returns (link: UndoLink)
    requires Inv(site) && UndonesPast(site) && Footed(site, p) && site.rows[p].email != ""
    requires RecoveryAddress(site.rows[p], site.now) == ""
    requires RequestChange(site, actor, p, email, quiet).outcome == Asked
    ensures
      var asked := RequestChange(site, actor, p, email, quiet).site;
      && link in asked.undoLinks && link.user == p && link.previous == site.rows[p].email && link.at == site.now
      && forall events, wait :: EndsTheChange(asked, link, events, wait)
  {
    var asked := RequestChange(site, actor, p, email, quiet).site;
    AskedNotice(site, actor, p, email, quiet);
    link := UndoLink(p, site.rows[p].email, Strip(email), site.now);
    forall events, wait ensures EndsTheChange(asked, link, events, wait) {
      NoticeEndsTheChange(asked, link, events, wait);
    }
  }

  /** Followed `wait` ticks after `events`, with nothing undone on the way, `link` takes the account back for good. */
  ghost predicate EndsTheChange(asked: Site, link: UndoLink, events: seq<Event>, wait: nat) {
    var later := Tick(Run(asked, events), wait);
    var reply := UndoChange(later, link);
    && link.user in asked.rows && link.user in later.rows
    && (later.rows[link.user].undoneAt == asked.rows[link.user].undoneAt && !Lapsed(link.at, UNDO_TIMEOUT, later.now) ==>
          && reply.outcome.Undone? && !reply.outcome.taken
          && link.user in reply.site.rows && Steps.TakenBack(reply.site.rows[link.user], link.previous)
          && forall change, onward :: change in later.changeLinks && change.user == link.user ==>
               NeverMoves(reply.site, change, onward))
  }

  ghost predicate NeverMoves(site: Site, change: ChangeLink, events: seq<Event>) {
    CompleteChange(Run(site, events), change).outcome != Moved
  }

  lemma NoticeEndsTheChange(asked: Site, link: UndoLink, events: seq<Event>, wait: nat)
    requires Inv(asked) && link in asked.undoLinks
    requires link.user in asked.rows && Watched(asked, link.user, link.previous, link.at, asked.rows[link.user].undoneAt)
    requires asked.rows[link.user].undoneAt.Some? ==> asked.rows[link.user].undoneAt.value < link.at
    ensures EndsTheChange(asked, link, events, wait)
  {
    var p, mark, run := link.user, asked.rows[link.user].undoneAt, Run(asked, events);
    var later := Tick(run, wait);
    Steps.RunMovesOn(asked, events, p);
    Marks.RunGrowsLinks(asked, events);
    Address.RunKeepsInv(asked, events);
    TickKeepsInv(run, wait);
    if later.rows[p].undoneAt == mark && !Lapsed(link.at, UNDO_TIMEOUT, later.now) {
      LinkInDateIsWithinAWeek(link.at, later.now);
      RunKeepsWatch(asked, events, run, p, link.previous, link.at, mark);
      TickKeepsWatch(run, wait, p, link.previous, link.at, mark);
      WatchedLinkWorks(later, p, link.previous, link, mark);
      forall change, onward | change in later.changeLinks && change.user == p
        ensures NeverMoves(UndoChange(later, link).site, change, onward)
      {
        UndoSpendsChangeLinks(later, link, change, onward);
      }
    }
  }

  lemma UndoSpendsChangeLinks(site: Site, link: UndoLink, change: ChangeLink, events: seq<Event>)
    requires Inv(site) && UndonesPast(site) && UndoChange(site, link).outcome.Undone?
    requires change in site.changeLinks && change.user == link.user
    ensures NeverMoves(UndoChange(site, link).site, change, events)
  {
    assert Do(site, Undo(link)) == UndoChange(site, link).site;
    Steps.NewPasswordSpendsChangeLinks(site, Undo(link), link.user, events, change);
  }

  // ------------------------------------------- the other links that are mailed

  /** Following `link`, with a password chosen or not, proves the address; a donor becomes what the link says. */
  ghost predicate Verifies(site: Site, link: VerifyLink, withPassword: bool) {
    var reply := VerifyEmail(site, link, withPassword);
    && reply.outcome == Verified
    && link.user in site.rows && link.user in reply.site.rows
    && var was, user := site.rows[link.user], reply.site.rows[link.user];
       && user.email == was.email && user.emailVerified && !user.emailBounced
       && (!IsDonor(was) ==> user.kind == was.kind && user.roles == was.roles && user.password == was.password)
       && (IsDonor(was) ==> link.upgrade == Some(user.kind) && user.roles == was.roles + {MemberRole}
                            && user.password == Password(site.nextHash, true))
  }

  ghost predicate VerifiesIff(sent: Site, link: VerifyLink, events: seq<Event>, withPassword: bool) {
    var later := Run(sent, events);
    && link.user in sent.rows && link.user in later.rows
    && var user := later.rows[link.user];
       var fits :=
         && !Lapsed(link.at, later.verificationTimeout, later.now) && user.isActive
         && NormalizedEmail(user.email) == NormalizedEmail(sent.rows[link.user].email)
         && (IsDonor(user) ==> link.upgrade.Some?);
       && (VerifyEmail(later, link, withPassword).outcome == PasswordRequired <==> fits && IsDonor(user) && !withPassword)
       && (VerifyEmail(later, link, withPassword).outcome == Verified <==> fits && (IsDonor(user) ==> withPassword))
       && (VerifyEmail(later, link, withPassword).outcome == Verified ==> Verifies(later, link, withPassword))
  }

  /**
   A verification link is mailed to everybody but a donor who is to stay one, and works after every run exactly
   while it is in date and its account is open at that address; a donor must choose a password.
   */
  lemma SentVerificationWorks(site: Site, p: Pk, upgrade: Option<PersonKind>) returns (link: VerifyLink)
    requires Inv(site) && p in site.rows && (IsDonor(site.rows[p]) ==> upgrade.Some?)
    ensures
      var sent := SendVerification(site, p, upgrade);
      && link in sent.verifyLinks && link.user == p && link.at == site.now && link.upgrade == upgrade
      && forall events, withPassword :: VerifiesIff(sent, link, events, withPassword)
  {
    var sent := SendVerification(site, p, upgrade);
    link := VerifyLink(p, NormalizedEmail(site.rows[p].email), upgrade, site.now);
    Address.VerificationKeepsInv(site, p, upgrade);
    forall events, withPassword ensures VerifiesIff(sent, link, events, withPassword) {
      VerificationWorksIff(sent, link, events, withPassword);
    }
  }

  lemma VerificationWorksIff(sent: Site, link: VerifyLink, events: seq<Event>, withPassword: bool)
    requires Inv(sent) && link in sent.verifyLinks && link.user in sent.rows
    requires link.email == NormalizedEmail(sent.rows[link.user].email)
    ensures VerifiesIff(sent, link, events, withPassword)
  {
    Marks.RunGrowsLinks(sent, events);
    Steps.RunMovesOn(sent, events, link.user);
  }

  /** Following `link` stores the password chosen, proves the address, ends a pending change and opens the account. */
  ghost predicate Resets(site: Site, link: ResetLink) {
    var reply := ConfirmReset(site, link);
    && reply.outcome == PasswordChosen
    && link.user in site.rows && link.user in reply.site.rows
    && var was, user := site.rows[link.user], reply.site.rows[link.user];
       && user.password == Password(site.nextHash, true) && user.pendingEmail == ""
       && user.email == was.email && user.emailVerified && !user.emailBounced && user.isActive
       && user.roles == was.roles && user.kind == was.kind
       && reply.site.undoLinks == site.undoLinks +
            (if was.password.usable && RecoveryAddress(was, site.now) != ""
             then {UndoLink(link.user, was.recoveryEmail, was.email, site.now)} else {})
  }

  ghost predicate ResetsIff(sent: Site, link: ResetLink, events: seq<Event>) {
    var later := Run(sent, events);
    && link.user in sent.rows && link.user in later.rows
    && var was, user := sent.rows[link.user], later.rows[link.user];
       var fits :=
         && later.now / SECOND <= link.at / SECOND + later.resetTimeout && !IsDonor(user)
         && user.email == was.email && user.password.hash == was.password.hash;
       && (ConfirmReset(later, link).outcome == PasswordChosen <==> fits && !user.reactivationBlocked)
       && (ConfirmReset(later, link).outcome == AccountClosed <==> fits && user.reactivationBlocked)
       && (ConfirmReset(later, link).outcome == PasswordChosen ==> Resets(later, link))
       && (ConfirmReset(later, link).outcome != PasswordChosen ==> ConfirmReset(later, link).site == later)
  }

  /**
   A password link is mailed to everybody but a donor, or a blocked account that asks for a reset, and works
   after every run exactly while it is in date and its account holds that address and that password, unblocked.
   */
  lemma SentPasswordLinkWorks(site: Site, p: Pk, invitation: bool) returns (link: ResetLink)
    requires Inv(site) && p in site.rows && !IsDonor(site.rows[p])
    requires invitation || (site.rows[p].email != "" && !site.rows[p].reactivationBlocked)
    ensures
      var sent := SendPasswordLink(site, p, invitation);
      && link in sent.resetLinks && link.user == p && link.at == site.now
      && forall events :: ResetsIff(sent, link, events)
  {
    var sent := SendPasswordLink(site, p, invitation);
    link := ResetLink(p, site.rows[p].email, site.rows[p].password.hash, site.now);
    Address.PasswordLinkKeepsInv(site, p, invitation);
    forall events ensures ResetsIff(sent, link, events) {
      PasswordLinkWorksIff(sent, link, events);
    }
  }

  lemma ResettingResets(site: Site, link: ResetLink)
    requires ConfirmReset(site, link).outcome == PasswordChosen
    ensures Resets(site, link)
  {
    Steps.ResetRows(site, link);
    Steps.ReopenedRow(site, link.user);
  }

  lemma PasswordLinkWorksIff(sent: Site, link: ResetLink, events: seq<Event>)
    requires Inv(sent) && link in sent.resetLinks && link.user in sent.rows
    requires link.email == sent.rows[link.user].email && link.hash == sent.rows[link.user].password.hash
    ensures ResetsIff(sent, link, events)
  {
    var later := Run(sent, events);
    Marks.RunGrowsLinks(sent, events);
    Steps.RunMovesOn(sent, events, link.user);
    if ConfirmReset(later, link).outcome == PasswordChosen {
      ResettingResets(later, link);
    }
  }

  /** Nobody else is mailed either link. */
  lemma WhoIsMailedNothing(site: Site, p: Pk, upgrade: Option<PersonKind>, invitation: bool)
    requires p in site.rows
    ensures IsDonor(site.rows[p]) && upgrade.None? ==> SendVerification(site, p, upgrade) == site
    ensures IsDonor(site.rows[p]) || (!invitation && site.rows[p].reactivationBlocked) ==>
      SendPasswordLink(site, p, invitation) == site
  {
  }
}
