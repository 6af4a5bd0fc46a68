/** What passwords, proofs of an address and new accounts come to, one after the other. */
module AccountLaws {
  import opened Outcomes
  import opened Text
  import opened Accounts
  import opened EmailChange
  import opened AccountRuns
  import Steps = RecoveryLaws

  /**
   A new password is stored exactly over the one that was seen, so of two that saw the same one only the first is
   stored; and it ends a pending change.
   */
  lemma OneReplacementIsStored(site: Site, p: Pk, seen: nat)
    requires Inv(site) && p in site.rows
    ensures
      var was, reply := site.rows[p], ReplacePassword(site, p, seen);
      && (reply.outcome <==> was.password.hash == seen)
      && (!reply.outcome ==> reply.site == site)
      && (reply.outcome ==>
            && reply.site == site.(rows := reply.site.rows, nextHash := reply.site.nextHash)
            && reply.site.rows == site.rows[p := reply.site.rows[p]]
            && var user := reply.site.rows[p];
               && user.password.usable && user.password.hash == site.nextHash
               && user == was.(password := user.password, pendingEmail := "", isDemo := false)
               && ReplacePassword(reply.site, p, seen) == Reply(false, reply.site))
  {
    assert Sound(site.rows[p], site.now, site.nextHash);
  }

  /** A password taken away leaves none to sign in with, ends a pending change, and refuses one chosen over the old. */
  lemma ClearedPasswordIsGone(site: Site, p: Pk)
    requires Inv(site) && p in site.rows
    ensures
      var was, after := site.rows[p], ClearPassword(site, p);
      && p in after.rows && after.rows == site.rows[p := after.rows[p]]
      && !after.rows[p].password.usable && after.rows[p].pendingEmail == ""
      && after.rows[p] == was.(password := after.rows[p].password, pendingEmail := "")
      && ReplacePassword(after, p, was.password.hash) == Reply(false, after)
  {
    assert Sound(site.rows[p], site.now, site.nextHash);
  }

  /** The notice of a new password carries one undo link, for a recovery address that has not lapsed, and no other. */
  lemma PasswordNoticeGoesToRecovery(site: Site, p: Pk)
    requires Inv(site) && p in site.rows
    ensures
      var user, after := site.rows[p], PasswordNotice(site, p);
      && after == site.(undoLinks := after.undoLinks)
      && after.undoLinks == site.undoLinks +
           (if RecoveryLive(user, site.now) then {UndoLink(p, user.recoveryEmail, user.email, site.now)} else {})
  {
    assert Sound(site.rows[p], site.now, site.nextHash);
  }

  /** An address is proved exactly while it is the account's, in letters of any case, and counts as new once. */
  lemma AddressIsProvedOnce(site: Site, p: Pk, seen: string)
    requires p in site.rows
    ensures
      var was, reply := site.rows[p], ConfirmAddress(site, p, seen);
      && (Lower(was.email) != Lower(seen) ==> reply == Reply(false, site))
      && (Lower(was.email) == Lower(seen) ==>
            && reply.site == site.(rows := site.rows[p := was.(emailVerified := true, emailBounced := false)])
            && (reply.outcome <==> !was.emailVerified)
            && ConfirmAddress(reply.site, p, seen) == Reply(false, reply.site))
  {
    var after := ConfirmAddress(site, p, seen).site;
    if Lower(site.rows[p].email) == Lower(seen) {
      assert after.rows[p := after.rows[p]] == after.rows;
    }
  }

  /**
   An account is opened exactly at an address nobody holds, unproved, open and unblocked, with the member's role unless
   it is a donor's; the address is then taken, and opening another at it changes nothing.
   */
  lemma AddressOpensOneAccount(site: Site, email: string, kind: Kind, usable: bool, other: Kind, again: bool)
    requires Inv(site)
    ensures
      var after := Register(site, email, kind, usable);
      && (AddressTaken(site, email, None) ==> after == site)
      && (!AddressTaken(site, email, None) ==>
            && site.nextPk !in site.rows && site.nextPk in after.rows
            && after.rows == site.rows[site.nextPk := after.rows[site.nextPk]]
            && var user := after.rows[site.nextPk];
               && user.email == Strip(email) && !user.emailVerified && user.pendingEmail == "" && user.recoveryUntil.None?
               && user.isActive && !user.reactivationBlocked && !user.isDemo && user.kind == kind
               && user.password == Password(site.nextHash, usable)
               && user.roles == (if kind == Donor then {} else {MemberRole}) && !user.isSuperuser && !user.isStaff
               && Register(after, email, other, again) == after)
  {
    var after := Register(site, email, kind, usable);
    if !AddressTaken(site, email, None) {
      Steps.NormalizedOfStripped(email);
      assert Holds(after.rows[site.nextPk], NormalizedEmail(email), after.now);
    }
  }
}
