/** The account services as they run: user records written field by field, in the order of the source. */
module AccountService {
  import opened Outcomes
  import opened Text
  import opened Accounts
  import Mailed = MailedLinks
  import Steps = EmailChange
  import Status = AccountStatus

  class User {
    const pk: Pk
    var email: string
    var emailVerified: bool
    var emailBounced: bool
    var pendingEmail: string
    var recoveryEmail: string
    var recoveryUntil: Option<nat>
    var undoneAt: Option<nat>
    var password: Password
    var kind: Kind
    var isActive: bool
    var reactivationBlocked: bool
    var isDemo: bool
    var roles: set<Role>
    var isSuperuser: bool
    var isStaff: bool

    constructor (pk: Pk, row: Account)
      ensures this.pk == pk && Row() == row
    {
      this.pk := pk;
      email, emailVerified, emailBounced := row.email, row.emailVerified, row.emailBounced;
      pendingEmail, recoveryEmail, recoveryUntil := row.pendingEmail, row.recoveryEmail, row.recoveryUntil;
      undoneAt, password, kind := row.undoneAt, row.password, row.kind;
      isActive, reactivationBlocked, isDemo := row.isActive, row.reactivationBlocked, row.isDemo;
      roles, isSuperuser, isStaff := row.roles, row.isSuperuser, row.isStaff;
    }

    function Row(): Account
      reads this
    {
      Account(email, emailVerified, emailBounced, pendingEmail, recoveryEmail, recoveryUntil, undoneAt, password,
              kind, isActive, reactivationBlocked, isDemo, roles, isSuperuser, isStaff)
    }

    /** Makes `address` the verified sign-in address, with no bounce against it. */
    method SignInWith(address: string)
      modifies this`email, this`emailVerified, this`emailBounced
      ensures Row() == old(Row()).(email := address, emailVerified := true, emailBounced := false)
    {
      email := address;
      emailVerified := true;
      emailBounced := false;
    }

    /** Keeps `address` for recovery until `until`, and drops any pending address. */
    method Keep(address: string, until: Option<nat>)
      modifies this`pendingEmail, this`recoveryEmail, this`recoveryUntil
      ensures Row() == old(Row()).(pendingEmail := "", recoveryEmail := address, recoveryUntil := until)
    {
      pendingEmail := "";
      recoveryEmail := address;
      recoveryUntil := until;
    }

    /** The writes of a completed change. */
    method MoveToPending(now: nat)
      modifies this
      ensures Row() == Steps.MovedAccount(old(Row()), now)
    {
      var recovery := Steps.RecoveryAfterMove(Row(), now);
      SignInWith(pendingEmail);
      Keep(recovery, if recovery != "" then Some(now + UNDO_TIMEOUT * SECOND) else None);
      isDemo := false;
    }

    /** The writes of an undo, before any closing. */
    method PutBack(previous: string, restored: bool, now: nat, hash: nat)
      modifies this
      ensures Row() == Steps.SecuredAccount(old(Row()), previous, restored, now, hash)
    {
      if restored {
        SignInWith(Strip(previous));
      }
      Keep("", None);
      undoneAt := Some(now);
      password := Password(hash, false);
    }

    /** Deactivates the account and blocks it from reactivating. */
    method Close()
      modifies this`isActive, this`reactivationBlocked
      ensures Row() == Steps.ClosedIf(old(Row()), true)
    {
      isActive := false;
      reactivationBlocked := true;
    }

    /** Stores a new password, dropping any change of address still waiting. */
    method StorePassword(hash: nat, usable: bool)
      modifies this`password, this`pendingEmail
      ensures password == Password(hash, usable) && pendingEmail == ""
    {
      password := Password(hash, usable);
      pendingEmail := "";
    }

    /** A donor's writes on becoming a `kind`: the password, the role and the kind. */
    method Join(kind: PersonKind, hash: nat)
      modifies this`password, this`roles, this`kind
      ensures Row() == old(Row()).(password := Password(hash, true), kind := kind, roles := old(roles) + {MemberRole})
    {
      password := Password(hash, true);
      roles := roles + {MemberRole};
      this.kind := kind;
    }

    /** Replaces the roles and rebuilds the Django flags from them. */
    method StoreRoles(wanted: set<Role>)
      modifies this`roles, this`isSuperuser, this`isStaff
      ensures Row() == Status.WithRoles(old(Row()), wanted)
    {
      roles := wanted;
      isSuperuser := SystemAdmin in roles;
      isStaff := isSuperuser || WebsiteAdmin in roles;
    }
  }

  class Database {
    var users: map<Pk, User>
    var nextPk: Pk
    var now: nat
    var nextHash: nat
    var verificationTimeout: nat
    var changeLinks: set<ChangeLink>
    var undoLinks: set<UndoLink>
    var resetTimeout: nat
    var verifyLinks: set<VerifyLink>
    var resetLinks: set<ResetLink>

    ghost predicate Valid()
      reads this
    {
      forall p :: p in users ==> users[p].pk == p
    }

    function View(): Site
      reads this, users.Values
    {
      Site(map p | p in users :: users[p].Row(), nextPk, now, nextHash, verificationTimeout, changeLinks, undoLinks,
           resetTimeout, verifyLinks, resetLinks)
    }

    /** True when `user` is a record of this database. */
    predicate Stores(user: User)
      reads this
    {
      user.pk in users && users[user.pk] == user
    }

    /** Recomputing the rows after one record was written. */
    twostate lemma RowsAfterWrite(user: User)
      requires old(Valid()) && old(Stores(user)) && users == old(users)
      requires forall p :: p in users && p != user.pk ==> users[p].Row() == old(users[p].Row())
      ensures View().rows == old(View()).rows[user.pk := user.Row()]
    {
    }

    // ------------------------------------------------------ change of address

    method SendChangeLink(user: User, requestedBy: Option<Pk>)
      requires Valid() && Stores(user)
      modifies this`changeLinks
      ensures View() == Steps.SendChangeLink(old(View()), user.pk, requestedBy)
    {
      if user.pendingEmail == "" || AddressTaken(View(), user.pendingEmail, Some(user.pk)) {
        return;
      }
      var link := ChangeLink(user.pk, NormalizedEmail(user.email), NormalizedEmail(user.pendingEmail), requestedBy,
                             user.password.hash, now);
      changeLinks := changeLinks + {link};
    }

    method SendNotice(user: User, previous: string, newEmail: string)
      requires Valid() && Stores(user)
      modifies this`undoLinks
      ensures View() == Steps.SendNotice(old(View()), user.pk, previous, newEmail)
    {
      if previous != "" {
        undoLinks := undoLinks + {UndoLink(user.pk, previous, newEmail, now)};
      }
    }

    method RequestEmailChange(actor: Actor, target: User, email: string, quietIfTaken: bool)
      returns (outcome: Steps.RequestOutcome)
      requires Valid() && Stores(target)
      modifies target, this`changeLinks, this`undoLinks
      ensures Valid() && users == old(users)
      ensures Steps.RequestChange(old(View()), actor, target.pk, email, quietIfTaken) == Reply(outcome, View())
    {
      var address := Strip(email);
      if NormalizedEmail(address) == NormalizedEmail(target.email) {
        return Steps.SameAddress;
      }
      if !MayEditProtected(View(), actor, target.Row()) {
        return Steps.RolesNotHeld;
      }
      var recoveryUntil := target.recoveryUntil;
      if actor == Person(target.pk) && RecoveryAddress(target.Row(), now) != "" && recoveryUntil.Some? {
        return Steps.RecentChange(recoveryUntil.value);
      }
      if !quietIfTaken && AddressTaken(View(), address, Some(target.pk)) {
        return Steps.AskedForTaken;
      }
      if target.kind == Donor {
        if AddressCollides(View(), address, target.pk) {
          return Steps.IndexRefused;
        }
        target.email := address;
        RowsAfterWrite(target);
        return Steps.DonorWritten;
      }
      Ask(actor, target, address);
      return Steps.Asked;
    }

    /** Stores the pending address and mails the two messages about it. */
    method Ask(actor: Actor, target: User, address: string)
      requires Valid() && Stores(target)
      modifies target`pendingEmail, this`changeLinks, this`undoLinks
      ensures View() == Steps.AskedSite(old(View()), actor, target.pk, address)
    {
      var noticeTo := NoticeAddress(target.Row(), now);
      target.pendingEmail := address;
      RowsAfterWrite(target);
      SendChangeLink(target, if actor.Person? then Some(actor.pk) else None);
      SendNotice(target, noticeTo, address);
    }

    method CompleteEmailChange(link: ChangeLink) returns (outcome: Steps.CompleteOutcome)
      requires Valid()
      modifies if link.user in users then {users[link.user]} else {}, this`undoLinks
      ensures Valid() && users == old(users)
      ensures Steps.CompleteChange(old(View()), link) == Reply(outcome, View())
    {
      if link !in changeLinks || Lapsed(link.at, verificationTimeout, now) || link.user !in users {
        return Steps.LinkInvalid;
      }
      var user := users[link.user];
      if !user.isActive {
        return Steps.LinkInvalid;
      }
      if NormalizedEmail(user.email) == link.changeTo && user.pendingEmail == "" {
        return Steps.AlreadyMoved;
      }
      var isWaiting := NormalizedEmail(user.pendingEmail) == link.changeTo;
      var isSamePassword := user.password.hash == link.hash;
      if NormalizedEmail(user.email) != link.email || !isWaiting || !isSamePassword {
        return Steps.LinkInvalid;
      }
      if AddressTaken(View(), user.pendingEmail, Some(user.pk)) {
        return Steps.CompletesToTaken;
      }
      user.MoveToPending(now);
      RowsAfterWrite(user);
      SendNotice(user, user.recoveryEmail, user.email);
      return Steps.Moved;
    }

    method UndoEmailChange(link: UndoLink) returns (outcome: Steps.UndoOutcome)
      requires Valid()
      modifies if link.user in users then {users[link.user]} else {}, this`nextHash
      ensures Valid() && users == old(users)
      ensures Steps.UndoChange(old(View()), link) == Reply(outcome, View())
    {
      if link !in undoLinks || Lapsed(link.at, UNDO_TIMEOUT, now) || link.user !in users {
        return Steps.UndoInvalid;
      }
      var user := users[link.user];
      if user.kind == Donor || Steps.IsSpent(user.Row(), link.at) {
        return Steps.UndoInvalid;
      }
      var recovery := RecoveryAddress(user.Row(), now);
      if recovery != "" && NormalizedEmail(recovery) != NormalizedEmail(link.previous) {
        return Steps.UndoInvalid;
      }
      assert Steps.UndoHonored(View(), link);
      var moved := NormalizedEmail(user.email) != NormalizedEmail(link.previous);
      var taken := moved && AddressTaken(View(), link.previous, Some(user.pk));
      var restored := moved && !taken;
      Secure(user, link.previous, restored, taken);
      return Steps.Undone(restored, taken);
    }

    /** Writes what an undo found to do: the address put back, the account secured, and closed when it must be. */
    method Secure(user: User, previous: string, restored: bool, taken: bool)
      requires Valid() && Stores(user)
      modifies user, this`nextHash
      ensures
        var site := old(View());
        var secured := Steps.SecuredAccount(old(user.Row()), previous, restored, site.now, site.nextHash);
        View() == site.(rows := site.rows[user.pk := Steps.ClosedIf(secured, taken)], nextHash := site.nextHash + 1)
    {
      user.PutBack(previous, restored, now, nextHash);
      nextHash := nextHash + 1;
      if taken {
        user.Close();
      }
      RowsAfterWrite(user);
    }

    // ------------------------------------------------------------- passwords

    method ReplacePassword(user: User, seen: nat) returns (written: bool)
      requires Valid() && Stores(user)
      modifies user, this`nextHash
      ensures Valid()
      ensures Steps.ReplacePassword(old(View()), user.pk, seen) == Reply(written, View())
    {
      if user.password.hash != seen {
        return false;
      }
      user.StorePassword(nextHash, true);
      user.isDemo := false;
      nextHash := nextHash + 1;
      assert user.Row() == old(user.Row()).(password := Password(old(nextHash), true), pendingEmail := "", isDemo := false);
      RowsAfterWrite(user);
      return true;
    }

    method ClearPasswordAndEndSessions(user: User)
      requires Valid() && Stores(user)
      modifies user, this`nextHash
      ensures Valid()
      ensures View() == Steps.ClearPassword(old(View()), user.pk)
    {
      user.StorePassword(nextHash, false);
      nextHash := nextHash + 1;
      RowsAfterWrite(user);
    }

    method SendPasswordChangedNotice(user: User)
      requires Valid() && Stores(user)
      modifies this`undoLinks
      ensures View() == Steps.PasswordNotice(old(View()), user.pk)
    {
      if user.kind == Donor {
        return;
      }
      SendNotice(user, RecoveryAddress(user.Row(), now), user.email);
    }

    method ConfirmEmailAddress(user: User, seen: string) returns (stamped: bool)
      requires Valid() && Stores(user)
      modifies user
      ensures Valid()
      ensures Steps.ConfirmAddress(old(View()), user.pk, seen) == Reply(stamped, View())
    {
      if Lower(user.email) != Lower(seen) {
        return false;
      }
      user.emailBounced := false;
      stamped := !user.emailVerified;
      user.emailVerified := true;
      RowsAfterWrite(user);
    }

    // ------------------------------------------------------ opening accounts

    method RegisterAccount(email: string, kind: Kind, usable: bool)
      requires Valid() && forall p :: p in users ==> p < nextPk
      modifies this
      ensures Valid()
      ensures View() == Steps.Register(old(View()), email, kind, usable)
    {
      if AddressTaken(View(), email, None) {
        return;
      }
      var roles := if kind == Donor then {} else {MemberRole};
      var row := Account(Strip(email), false, false, "", "", None, None, Password(nextHash, usable), kind,
                         true, false, false, roles, false, false);
      ghost var rows := View().rows;
      var user := new User(nextPk, row);
      users := users[nextPk := user];
      nextPk := nextPk + 1;
      nextHash := nextHash + 1;
      assert View().rows == rows[user.pk := row];
    }

    method UpgradeDonor(user: User, kind: PersonKind)
      requires Valid() && Stores(user)
      modifies user, this`nextHash
      ensures Valid()
      ensures View() == Steps.UpgradeDonor(old(View()), user.pk, kind)
    {
      user.Join(kind, nextHash);
      nextHash := nextHash + 1;
      RowsAfterWrite(user);
    }

    // ------------------------------------- verification links and password links

    method SendEmailVerification(user: User, upgrade: Option<PersonKind>)
      requires Valid() && Stores(user)
      modifies this`verifyLinks
      ensures View() == Mailed.SendVerification(old(View()), user.pk, upgrade)
    {
      if user.kind == Donor && upgrade.None? {
        return;
      }
      verifyLinks := verifyLinks + {VerifyLink(user.pk, NormalizedEmail(user.email), upgrade, now)};
    }

    method VerifyEmail(link: VerifyLink, withPassword: bool) returns (outcome: Mailed.VerifyOutcome)
      requires Valid()
      modifies if link.user in users then {users[link.user]} else {}, this`nextHash
      ensures Valid() && users == old(users)
      ensures Mailed.VerifyEmail(old(View()), link, withPassword) == Reply(outcome, View())
    {
      if link !in verifyLinks || Lapsed(link.at, verificationTimeout, now) || link.user !in users {
        return Mailed.VerifyInvalid;
      }
      var user := users[link.user];
      if !user.isActive || NormalizedEmail(user.email) != link.email {
        return Mailed.VerifyInvalid;
      }
      if user.kind == Donor {
        if link.upgrade.None? {
          return Mailed.VerifyInvalid;
        }
        if !withPassword {
          return Mailed.PasswordRequired;
        }
        UpgradeDonor(user, link.upgrade.value);
      }
      var stamped := ConfirmEmailAddress(user, user.email);
      return Mailed.Verified;
    }

    method SendPasswordLink(user: User, invitation: bool)
      requires Valid() && Stores(user)
      modifies this`resetLinks
      ensures View() == Mailed.SendPasswordLink(old(View()), user.pk, invitation)
    {
      if user.kind == Donor || (!invitation && (user.email == "" || user.reactivationBlocked)) {
        return;
      }
      resetLinks := resetLinks + {ResetLink(user.pk, user.email, user.password.hash, now)};
    }

    method ConfirmPasswordReset(link: ResetLink) returns (outcome: Mailed.ResetOutcome)
      requires Valid()
      modifies if link.user in users then {users[link.user]} else {}, this`nextHash, this`undoLinks
      ensures Valid() && users == old(users)
      ensures Mailed.ConfirmReset(old(View()), link) == Reply(outcome, View())
    {
      if link !in resetLinks || ResetLapsed(link.at, resetTimeout, now) || link.user !in users {
        return Mailed.ResetInvalid;
      }
      var user := users[link.user];
      if user.kind == Donor || user.email != link.email || user.password.hash != link.hash {
        return Mailed.ResetInvalid;
      }
      if user.reactivationBlocked {
        return Mailed.AccountClosed;
      }
      var hadPassword := user.password.usable;
      Reopen(user, link.email);
      if hadPassword {
        SendPasswordChangedNotice(user);
      }
      return Mailed.PasswordChosen;
    }

    /** Stores the password chosen through a link, confirms the address, and opens the account if it was closed. */
    method Reopen(user: User, email: string)
      requires Valid() && Stores(user)
      modifies user, this`nextHash
      ensures Valid()
      ensures View() == Mailed.Reopened(old(View()), user.pk, old(user.password.hash), email)
    {
      var wasActive := user.isActive;
      var written := ReplacePassword(user, user.password.hash);
      var stamped := ConfirmEmailAddress(user, email);
      if !wasActive {
        var outcome := ReactivateOwnAccount(user);
      }
    }

    // ------------------------------------------------------ roles and status

    method UpdateAccount(actor: Actor, target: User, roles: Option<set<Role>>, kind: Option<PersonKind>)
      returns (outcome: Status.EditOutcome)
      requires Valid() && Stores(target)
      modifies target
      ensures Valid()
      ensures Status.UpdateAccount(old(View()), actor, target.pk, roles, kind) == Reply(outcome, View())
    {
      if roles.Some? {
        var refusal := Status.RoleRefusal(View(), actor, target.pk, roles.value);
        if refusal.Some? {
          return refusal.value;
        }
      }
      if kind.Some? && target.kind == Donor {
        return Status.DonorKind;
      }
      if roles.Some? && Status.WritesRoles(target.Row(), roles.value) {
        target.StoreRoles(roles.value);
      }
      if kind.Some? && kind.value != target.kind {
        target.kind := kind.value;
      }
      RowsAfterWrite(target);
      return Status.Edited;
    }

    method SetVerifier(actor: Actor, target: User, wanted: bool) returns (outcome: Status.EditOutcome)
      requires Valid() && Stores(target)
      modifies target
      ensures Valid()
      ensures Status.SetVerifier(old(View()), actor, target.pk, wanted) == Reply(outcome, View())
    {
      var held := target.roles - {Verifier};
      outcome := UpdateAccount(actor, target, Some(if wanted then held + {Verifier} else held), None);
    }

    method DeactivateOwnAccount(user: User) returns (outcome: Status.StatusOutcome)
      requires Valid() && Stores(user)
      modifies user
      ensures Valid()
      ensures Status.DeactivateOwn(old(View()), user.pk) == Reply(outcome, View())
    {
      if user.kind == Donor {
        return Status.DonorAccount;
      }
      if SystemAdmin in AccountRoles(user.Row()) {
        return Status.SystemAdminTarget;
      }
      user.isActive := false;
      user.pendingEmail := "";
      RowsAfterWrite(user);
      return Status.Changed;
    }

    method DeactivateAccount(actor: Pk, target: User) returns (outcome: Status.StatusOutcome)
      requires Valid() && Stores(target)
      modifies target
      ensures Valid()
      ensures Status.Deactivate(old(View()), actor, target.pk) == Reply(outcome, View())
    {
      if target.kind == Donor {
        return Status.DonorAccount;
      }
      if target.pk == actor {
        return Status.OwnAccount;
      }
      if !MayEditProtected(View(), Person(actor), target.Row()) {
        return Status.RolesLacking;
      }
      if !target.isActive {
        return Status.AlreadySo;
      }
      target.isActive := false;
      target.pendingEmail := "";
      RowsAfterWrite(target);
      return Status.Changed;
    }

    method ReactivateOwnAccount(user: User) returns (outcome: Status.StatusOutcome)
      requires Valid() && Stores(user)
      modifies user
      ensures Valid()
      ensures Status.ReactivateOwn(old(View()), user.pk) == Reply(outcome, View())
    {
      if user.reactivationBlocked {
        return Status.Blocked;
      }
      user.isActive := true;
      RowsAfterWrite(user);
      return Status.Changed;
    }

    method ReactivateAccount(actor: Pk, target: User) returns (outcome: Status.StatusOutcome)
      requires Valid() && Stores(target)
      modifies target
      ensures Valid()
      ensures Status.Reactivate(old(View()), actor, target.pk) == Reply(outcome, View())
    {
      if target.kind == Donor {
        return Status.DonorAccount;
      }
      if !MayEditProtected(View(), Person(actor), target.Row()) {
        return Status.RolesLacking;
      }
      if target.reactivationBlocked {
        return Status.Blocked;
      }
      if target.isActive {
        return Status.AlreadySo;
      }
      target.isActive := true;
      RowsAfterWrite(target);
      return Status.Changed;
    }

    method SetReactivationBlocked(actor: Pk, target: User, blocked: bool) returns (outcome: Status.StatusOutcome)
      requires Valid() && Stores(target)
      modifies target
      ensures Valid()
      ensures Status.SetReactivationBlocked(old(View()), actor, target.pk, blocked) == Reply(outcome, View())
    {
      if target.kind == Donor {
        return Status.DonorAccount;
      }
      if target.pk == actor {
        return Status.OwnAccount;
      }
      if !MayEditProtected(View(), Person(actor), target.Row()) {
        return Status.RolesLacking;
      }
      if target.reactivationBlocked == blocked {
        return Status.AlreadySo;
      }
      target.reactivationBlocked := blocked;
      RowsAfterWrite(target);
      return Status.Changed;
    }
  }
}
