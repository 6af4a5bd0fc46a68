/** What each step of a change of sign-in address does to the site. */
module EmailChange {
  import opened Outcomes
  import opened Text
  import opened Accounts

  // ---------------------------------------------------------- signing links

  function ChangeLinkFor(site: Site, p: Pk, requestedBy: Option<Pk>): ChangeLink
    requires p in site.rows
  {
    var user := site.rows[p];
    ChangeLink(p, NormalizedEmail(user.email), NormalizedEmail(user.pendingEmail), requestedBy,
               user.password.hash, site.now)
  }

  /** The site once the pending address of `p` is mailed the link that completes the change. */
  function SendChangeLink(site: Site, p: Pk, requestedBy: Option<Pk>): Site
    requires p in site.rows
  {
    if site.rows[p].pendingEmail == "" || AddressTaken(site, site.rows[p].pendingEmail, Some(p)) then site
    else site.(changeLinks := site.changeLinks + {ChangeLinkFor(site, p, requestedBy)})
  }

  /** The site once `previous` is mailed a link that undoes a change of the address of `p`. */
  function SendNotice(site: Site, p: Pk, previous: string, newEmail: string): Site {
    if previous == "" then site
    else site.(undoLinks := site.undoLinks + {UndoLink(p, previous, newEmail, site.now)})
  }

  // ---------------------------------------------------- asking for a change

  datatype RequestOutcome =
    | SameAddress
    | RolesNotHeld
    | RecentChange(until: nat)
    | AskedForTaken
    | IndexRefused
    | DonorWritten
    | Asked

  /** The site once `address` is pending for `p` and the two messages about it are mailed. */
  function AskedSite(site: Site, actor: Actor, p: Pk, address: string): Site
    requires p in site.rows
  {
    var target := site.rows[p];
    var pending := site.(rows := site.rows[p := target.(pendingEmail := address)]);
    var mailed := SendChangeLink(pending, p, if actor.Person? then Some(actor.pk) else None);
    SendNotice(mailed, p, NoticeAddress(target, site.now), address)
  }

  function RequestChange(site: Site, actor: Actor, p: Pk, email: string, quietIfTaken: bool): Reply<RequestOutcome>
    requires p in site.rows
  {
    var address := Strip(email);
    var target := site.rows[p];
    if NormalizedEmail(address) == NormalizedEmail(target.email) then Reply(SameAddress, site)
    else if !MayEditProtected(site, actor, target) then Reply(RolesNotHeld, site)
    else if actor == Person(p) && RecoveryAddress(target, site.now) != "" && target.recoveryUntil.Some? then
      Reply(RecentChange(target.recoveryUntil.value), site)
    else if !quietIfTaken && AddressTaken(site, address, Some(p)) then Reply(AskedForTaken, site)
    else if IsDonor(target) then
      if AddressCollides(site, address, p) then Reply(IndexRefused, site)
      else Reply(DonorWritten, site.(rows := site.rows[p := target.(email := address)]))
    else
      Reply(Asked, AskedSite(site, actor, p, address))
  }

  // ---------------------------------------------------------- completing it

  datatype CompleteOutcome = LinkInvalid | AlreadyMoved | CompletesToTaken | Moved

  /** The recovery address a completed change leaves: the one kept, or the verified one moved from. */
  function RecoveryAfterMove(user: Account, now: nat): string {
    var kept := RecoveryAddress(user, now);
    if kept != "" then kept else if user.emailVerified then user.email else ""
  }

  /** The account `user` once it has moved to its pending address. */
  function MovedAccount(user: Account, now: nat): Account {
    var recovery := RecoveryAfterMove(user, now);
    user.(
      email := user.pendingEmail,
      pendingEmail := "",
      emailVerified := true,
      emailBounced := false,
      recoveryEmail := recovery,
      recoveryUntil := if recovery != "" then Some(now + UNDO_TIMEOUT * SECOND) else None,
      isDemo := false)
  }

  function CompleteChange(site: Site, link: ChangeLink): Reply<CompleteOutcome> {
    if link !in site.changeLinks || Lapsed(link.at, site.verificationTimeout, site.now) then Reply(LinkInvalid, site)
    else if link.user !in site.rows || !site.rows[link.user].isActive then Reply(LinkInvalid, site)
    else
      var user := site.rows[link.user];
      if NormalizedEmail(user.email) == link.changeTo && user.pendingEmail == "" then Reply(AlreadyMoved, site)
      else if
        || NormalizedEmail(user.email) != link.email
        || NormalizedEmail(user.pendingEmail) != link.changeTo
        || user.password.hash != link.hash
      then Reply(LinkInvalid, site)
      else if AddressTaken(site, user.pendingEmail, Some(link.user)) then Reply(CompletesToTaken, site)
      else
        var moved := MovedAccount(user, site.now);
        var written := site.(rows := site.rows[link.user := moved]);
        Reply(Moved, SendNotice(written, link.user, moved.recoveryEmail, moved.email))
  }

  // ---------------------------------------------------------------- undoing

  datatype UndoOutcome = UndoInvalid | Undone(restored: bool, taken: bool)

  predicate IsSpent(user: Account, issuedAt: nat) {
    user.undoneAt.Some? && issuedAt <= user.undoneAt.value
  }

  /** True when an undo link would be honored: everything but where its address went. */
  predicate UndoHonored(site: Site, link: UndoLink) {
    && link in site.undoLinks
    && !Lapsed(link.at, UNDO_TIMEOUT, site.now)
    && link.user in site.rows
    && var user := site.rows[link.user];
       var recovery := RecoveryAddress(user, site.now);
       && !IsDonor(user)
       && !IsSpent(user, link.at)
       && (recovery == "" || NormalizedEmail(recovery) == NormalizedEmail(link.previous))
  }

  /** The account `user` once an undo has secured it, putting `previous` back when it is `restored`. */
  function SecuredAccount(user: Account, previous: string, restored: bool, now: nat, hash: nat): Account {
    user.(
      email := if restored then Strip(previous) else user.email,
      emailVerified := restored || user.emailVerified,
      emailBounced := !restored && user.emailBounced,
      pendingEmail := "",
      recoveryEmail := "",
      recoveryUntil := None,
      undoneAt := Some(now),
      password := Password(hash, false))
  }

  /** The account `user`, deactivated and blocked when `closing`. */
  function ClosedIf(user: Account, closing: bool): Account {
    user.(isActive := user.isActive && !closing, reactivationBlocked := user.reactivationBlocked || closing)
  }

  function UndoChange(site: Site, link: UndoLink): Reply<UndoOutcome> {
    if !UndoHonored(site, link) then Reply(UndoInvalid, site)
    else
      var user := site.rows[link.user];
      var moved := NormalizedEmail(user.email) != NormalizedEmail(link.previous);
      var taken := moved && AddressTaken(site, link.previous, Some(link.user));
      var restored := moved && !taken;
      var secured := SecuredAccount(user, link.previous, restored, site.now, site.nextHash);
      var undone := ClosedIf(secured, taken);
      Reply(Undone(restored, taken), site.(rows := site.rows[link.user := undone], nextHash := site.nextHash + 1))
  }

  // --------------------------------------------- passwords and verification

  /** Writes a new password unless the stored one is no longer `seen`. */
  function ReplacePassword(site: Site, p: Pk, seen: nat): Reply<bool>
    requires p in site.rows
  {
    var user := site.rows[p];
    if user.password.hash != seen then Reply(false, site)
    else
      var renewed := user.(password := Password(site.nextHash, true), pendingEmail := "", isDemo := false);
      Reply(true, site.(rows := site.rows[p := renewed], nextHash := site.nextHash + 1))
  }

  function ClearPassword(site: Site, p: Pk): Site
    requires p in site.rows
  {
    var renewed := site.rows[p].(password := Password(site.nextHash, false), pendingEmail := "");
    site.(rows := site.rows[p := renewed], nextHash := site.nextHash + 1)
  }

  /** The notice of a changed password, with its undo link while a recovery address is kept. */
  function PasswordNotice(site: Site, p: Pk): Site
    requires p in site.rows
  {
    var user := site.rows[p];
    if IsDonor(user) then site else SendNotice(site, p, RecoveryAddress(user, site.now), user.email)
  }

  /** Records that the owner of `p` has proved the address `seen`; true when it was unproved. */
  function ConfirmAddress(site: Site, p: Pk, seen: string): Reply<bool>
    requires p in site.rows
  {
    var user := site.rows[p];
    if Lower(user.email) != Lower(seen) then Reply(false, site)
    else Reply(!user.emailVerified,
               site.(rows := site.rows[p := user.(emailBounced := false, emailVerified := true)]))
  }

  // --------------------------------------------------------- opening accounts

  /** A new account at `email`, when nobody holds the address; `usable` when it is given a password. */
  function Register(site: Site, email: string, kind: Kind, usable: bool): Site {
    if AddressTaken(site, email, None) then site
    else
      var roles := if kind == Donor then {} else {MemberRole};
      var user := Account(Strip(email), false, false, "", "", None, None, Password(site.nextHash, usable), kind,
                          true, false, false, roles, false, false);
      site.(rows := site.rows[site.nextPk := user], nextPk := site.nextPk + 1, nextHash := site.nextHash + 1)
  }

  /** A donor that has chosen a password becomes a `kind`. */
  function UpgradeDonor(site: Site, p: Pk, kind: PersonKind): Site
    requires p in site.rows
  {
    var user := site.rows[p];
    var upgraded := user.(password := Password(site.nextHash, true), kind := kind, roles := user.roles + {MemberRole});
    site.(rows := site.rows[p := upgraded], nextHash := site.nextHash + 1)
  }
}
