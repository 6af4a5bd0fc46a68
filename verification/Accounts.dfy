/** The accounts table, the roles, and the questions the account rules ask of them. */
module Accounts {
  import opened Outcomes
  import opened Text

  // ------------------------------------------------------------------ roles

  datatype Role =
    | MemberRole | Verifier | DartLeader | UserAdmin | Treasurer
    | AccountAdmin | Management | WebsiteAdmin | SystemAdmin

  const ALL_ROLES: set<Role> := {
    MemberRole, Verifier, DartLeader, UserAdmin, Treasurer,
    AccountAdmin, Management, WebsiteAdmin, SystemAdmin
  }

  /** The roles only a holder, or a system administrator, may move: the two-factor roles. */
  const GUARDED_ROLES: set<Role> := {
    UserAdmin, Treasurer, AccountAdmin, Management, WebsiteAdmin, SystemAdmin
  }

  // --------------------------------------------------------------- accounts

  type Pk = nat

  datatype Kind = Member | Friend | Donor

  /** The kinds a person may choose, and the only ones an edit or an upgrade names. */
  type PersonKind = k: Kind | k != Donor witness Member

  /** A stored password hash: every write of a password draws a new one. */
  datatype Password = Password(hash: nat, usable: bool)

  datatype Account = Account(
    email: string,
    emailVerified: bool,
    emailBounced: bool,
    pendingEmail: string,
    recoveryEmail: string,
    recoveryUntil: Option<nat>,
    undoneAt: Option<nat>,
    password: Password,
    kind: Kind,
    isActive: bool,
    reactivationBlocked: bool,
    isDemo: bool,
    roles: set<Role>,
    isSuperuser: bool,
    isStaff: bool
  )

  /** Who a change is made for: an account, or a management command. */
  datatype Actor = Command | Person(pk: Pk)

  // ------------------------------------------------------------ signed links

  /** What a confirmation link for a new address is signed over, and when it was signed. */
  datatype ChangeLink = ChangeLink(user: Pk, email: string, changeTo: string, requestedBy: Option<Pk>, hash: nat, at: nat)

  /** What an undo link is signed over: it is mailed to `previous`, and can put it back. */
  datatype UndoLink = UndoLink(user: Pk, previous: string, newEmail: string, at: nat)

  /** The link that verifies an address, and that opens the portal to a donor when it carries an `upgrade`. */
  datatype VerifyLink = VerifyLink(user: Pk, email: string, upgrade: Option<PersonKind>, at: nat)

  /** The link that lets an account choose a new password, signed over its address and its password. */
  datatype ResetLink = ResetLink(user: Pk, email: string, hash: nat, at: nat)

  // --------------------------------------------------------------- the site

  /** Ticks of the clock in one second. */
  const SECOND: nat := 1_000_000

  /** Seven days, in seconds: the life of an undo link, and of a recovery address. */
  const UNDO_TIMEOUT: nat := 604_800

  /**
   The database as the account rules see it.  The four sets of links hold every link signed so
   far, which is what a signature check recognizes; `nextHash` is above every password hash
   stored so far.
   */
  datatype Site = Site(
    rows: map<Pk, Account>,
    nextPk: Pk,
    now: nat,
    nextHash: nat,
    verificationTimeout: nat,
    changeLinks: set<ChangeLink>,
    undoLinks: set<UndoLink>,
    resetTimeout: nat,
    verifyLinks: set<VerifyLink>,
    resetLinks: set<ResetLink>
  )

  /** A step's answer, and the database it leaves. */
  datatype Reply<+T> = Reply(outcome: T, site: Site)

  /** A signature carries whole seconds, so a link lapses up to a second early. */
  predicate Lapsed(at: nat, seconds: nat, now: nat) {
    now > at / SECOND * SECOND + seconds * SECOND
  }

  /** A password link lapses by whole seconds on both sides. */
  predicate ResetLapsed(at: nat, seconds: nat, now: nat) {
    now / SECOND > at / SECOND + seconds
  }

  // -------------------------------------------------------------- questions

  function NormalizedEmail(address: string): string {
    Lower(Strip(address))
  }

  predicate IsDonor(user: Account) { user.kind == Donor }

  predicate RecoveryLive(user: Account, now: nat) {
    user.recoveryUntil.Some? && user.recoveryUntil.value > now
  }

  /** The recovery address of `user`, until it lapses; "" for none. */
  function RecoveryAddress(user: Account, now: nat): string {
    if user.recoveryEmail == "" || user.recoveryUntil.None? then ""
    else if user.recoveryUntil.value > now then user.recoveryEmail else ""
  }

  /** Who is told of a change: the recovery address first, then the own address if verified; "" for nobody. */
  function NoticeAddress(user: Account, now: nat): string {
    var recovery := RecoveryAddress(user, now);
    if recovery != "" then recovery else if user.emailVerified then user.email else ""
  }

  /** True when `key`, a lowercased address, belongs to `user` at `now`. */
  predicate Holds(user: Account, key: string, now: nat) {
    || Lower(user.email) == key
    || (RecoveryLive(user, now) && Lower(user.recoveryEmail) == key)
  }

  /** Some account, leaving `other` out, holds `address` as its own or its recovery address. */
  predicate AddressTaken(site: Site, address: string, other: Option<Pk>) {
    exists p :: p in site.rows && Some(p) != other && Holds(site.rows[p], NormalizedEmail(address), site.now)
  }

  /** True when writing `address` to `target` would break the unique index on addresses. */
  predicate AddressCollides(site: Site, address: string, target: Pk) {
    exists p :: p in site.rows && p != target && Lower(site.rows[p].email) == NormalizedEmail(address)
  }

  function AccountRoles(user: Account): set<Role> {
    user.roles + if user.isSuperuser then {SystemAdmin} else {}
  }

  function EffectiveRoles(site: Site, actor: Actor): set<Role> {
    match actor
    case Command => ALL_ROLES
    case Person(pk) => if pk in site.rows then AccountRoles(site.rows[pk]) else {}
  }

  /** True when `actor` holds every guarded role `target` holds, or is a system administrator. */
  predicate MayEditProtected(site: Site, actor: Actor, target: Account) {
    || SystemAdmin in EffectiveRoles(site, actor)
    || (AccountRoles(target) - EffectiveRoles(site, actor)) * GUARDED_ROLES == {}
  }

  /** The roles of `target` that `actor` may move. */
  function AssignableRoles(site: Site, actor: Actor, target: Pk): set<Role> {
    if actor == Person(target) then {}
    else if SystemAdmin in EffectiveRoles(site, actor) then ALL_ROLES
    else (ALL_ROLES - GUARDED_ROLES) + GUARDED_ROLES * EffectiveRoles(site, actor)
  }
}
