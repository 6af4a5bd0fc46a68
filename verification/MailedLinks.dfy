/** The links that verify an address, and the links that let an account choose a password. */
module MailedLinks {
  import opened Outcomes
  import opened Accounts
  import opened EmailChange
  import Status = AccountStatus

  // --------------------------------------------------- verifying an address

  /** The site once the address of `p` is mailed a verification link; a donor is mailed only one that upgrades it. */
  function SendVerification(site: Site, p: Pk, upgrade: Option<PersonKind>): Site
    requires p in site.rows
  {
    var user := site.rows[p];
    if IsDonor(user) && upgrade.None? then site
    else site.(verifyLinks := site.verifyLinks + {VerifyLink(p, NormalizedEmail(user.email), upgrade, site.now)})
  }

  datatype VerifyOutcome = VerifyInvalid | PasswordRequired | Verified

  /** A link in date, to the address its account holds now, and for a donor one that upgrades it. */
  predicate VerifyHonored(site: Site, link: VerifyLink) {
    && link in site.verifyLinks
    && !Lapsed(link.at, site.verificationTimeout, site.now)
    && link.user in site.rows
    && var user := site.rows[link.user];
       && user.isActive
       && NormalizedEmail(user.email) == link.email
       && (IsDonor(user) ==> link.upgrade.Some?)
  }

  /** Following a verification link, with or without choosing a password. */
  function VerifyEmail(site: Site, link: VerifyLink, withPassword: bool): Reply<VerifyOutcome> {
    if !VerifyHonored(site, link) then Reply(VerifyInvalid, site)
    else
      var user := site.rows[link.user];
      if !IsDonor(user) then Reply(Verified, ConfirmAddress(site, link.user, user.email).site)
      else if !withPassword then Reply(PasswordRequired, site)
      else
        var upgraded := UpgradeDonor(site, link.user, link.upgrade.value);
        Reply(Verified, ConfirmAddress(upgraded, link.user, user.email).site)
  }

  // ----------------------------------------------------- choosing a password

  /** The site once the address of `p` is mailed a password link: a reset, or an invitation. */
  function SendPasswordLink(site: Site, p: Pk, invitation: bool): Site
    requires p in site.rows
  {
    var user := site.rows[p];
    if IsDonor(user) || (!invitation && (user.email == "" || user.reactivationBlocked)) then site
    else site.(resetLinks := site.resetLinks + {ResetLink(p, user.email, user.password.hash, site.now)})
  }

  datatype ResetOutcome = ResetInvalid | AccountClosed | PasswordChosen

  /** A link in date, signed over the address and the password its account holds now. */
  predicate ResetHonored(site: Site, link: ResetLink) {
    && link in site.resetLinks
    && !ResetLapsed(link.at, site.resetTimeout, site.now)
    && link.user in site.rows
    && var user := site.rows[link.user];
       !IsDonor(user) && user.email == link.email && user.password.hash == link.hash
  }

  /** The site once `p` has a password of its choosing, its address is confirmed, and it is open again. */
  function Reopened(site: Site, p: Pk, hash: nat, email: string): Site
    requires p in site.rows
  {
    var replaced := ReplacePassword(site, p, hash).site;
    var confirmed := ConfirmAddress(replaced, p, email).site;
    if site.rows[p].isActive then confirmed else Status.ReactivateOwn(confirmed, p).site
  }

  /** Following a password link: its owner is told when the account had a password before. */
  function ConfirmReset(site: Site, link: ResetLink): Reply<ResetOutcome> {
    if !ResetHonored(site, link) then Reply(ResetInvalid, site)
    else
      var user := site.rows[link.user];
      if user.reactivationBlocked then Reply(AccountClosed, site)
      else
        var reopened := Reopened(site, link.user, link.hash, link.email);
        Reply(PasswordChosen, if user.password.usable then PasswordNotice(reopened, link.user) else reopened)
  }
}
