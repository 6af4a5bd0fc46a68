# CalDART, modelled and proved

CalDART is a membership site: accounts with roles, a two-factor sign-in, a user guide trimmed for each
reader, a bulk import of the FAA's aircraft registry, and a register of aircraft whose insurance is
verified by hand. This project models the parts whose rules are hardest to see from one function, and
proves what those rules are for.

| file | what it holds |
|---|---|
| `Accounts`, `EmailChange`, `MailedLinks`, `AccountStatus` | the accounts table, and what each account step does to it |
| `AccountRuns`, `AddressLaws`, `RecoveryLaws`, `LinkLaws`, `RoleLaws`, `MarkLaws`, `StatusLaws`, `AccountLaws` | runs of those steps, the invariant they keep, and what follows |
| `AccountExamples` | sites and runs at which those laws meet their limits |
| `AccountService` | the same steps as methods that write the fields of stored accounts, each equal to its step |
| `Lockout`, `LockoutStore` | the sign-in lockout: the rules and their bounds, and the stored counters |
| `Mfa`, `MfaStore` | one-time codes, backup codes and pending sign-ins, and their stored rows |
| `SearchIndex`, `GuidePage`, `GuideCaptions`, `GuideRoles` | the guide as one reader sees it |
| `Registry`, `TypeFold`, `ImportRuns` | the registry import |
| `Casing`, `CasingLoops`, `CasingLaws`, `Bounce`, `Audit`, `Text`, `Decimal` | text with exact laws |
| `Insurance` | the insurance stamp |

**Accounts.** A `Site` is the accounts table with the clock, the four kinds of link signed so far (to complete a
change of address, to undo one, to verify an address, to choose a password), and a number above every password
hash in use. Each service function is one atomic step, since each takes row and address locks; the clock moves
by at least one tick between steps. A signature is recognised by membership of the link in the set of links
signed, and a password hash is a number never used before, so `password_fingerprint` is the hash itself.
Addresses are strings over ASCII, compared by trimming and lowering them. A step that names an account that does
not exist leaves everything alone. A verification link or a password link that the code mails on its way, as
when an account is opened, invited, or secured by an undo, is the step that mails one. Where the code works by
writing the fields of a row, `AccountService` does too, and every method there says that the whole site
afterwards is what the step's function makes of the site before.

The invariant `AccountRuns.Inv` holds of every reachable site: no address belongs to two accounts, whether
as a sign-in address or as an unexpired recovery address; and every recovery address kept has an unspent
undo link out to it, signed when its keeping began. From it follow the main results: the owner of a recovery
address can take the account back, up to the last whole second it is kept for; a reservation outlasts every run
but its owner's own undo; and an undo spends every link before it. A second invariant, `MarkLaws.MarksBacked`,
says that a link was mailed to the address of every account marked as verified. `LinkLaws` is the other half: what is
asked for can be done. Every link that is mailed works, after every run, exactly as long as it should.

**Text.** The casing laws hold for any word lists; `Casing.SITE_LISTS` are the site's own. A part of a word is
specified letter by letter, by what stands just before each letter, and the loops that build it piece by piece
are proved against that.

**Where the code and its description part.** The code is followed, and each difference is proved.

- A signed link carries its time in whole seconds, so an undo link lapses up to one second before the
  recovery address it was mailed to expires. `AccountExamples.LastSecond` is a site where the owner of a live
  recovery address has no way back; `RecoveryLaws.OwnerCanTakeBackIff` says exactly when they have one.
- Closing an account ends its pending change, and leaves its password: the old confirmation link works again
  once the same address is asked for again. `AccountExamples.ClosedLinkRevives` is such a run, and
  `StatusLaws.ClosedLinkCompletesIff` says exactly when an old link completes. After a new password it never does.
- `quiet_if_taken` with a donor's account would write an address somebody else keeps for recovery.
  `RecoveryLaws.QuietDonorRequest` says exactly when, and `AccountExamples.QuietDonor` shows one. No caller does it:
  the one endpoint that asks quietly is for signed-in accounts.
- An undo link whose address went to another account meanwhile closes the account, a system administrator's
  too. `AccountExamples.LastAdminClosed` is a run in which that was the only one, and
  `RoleLaws.ClosingLeavesAnAdminIff` says exactly when an administrator is left.
- The nightly timer's claim leaves a stale import unfinished, so two rows of the import log may be unfinished
  (`ImportRuns.TwoMayBeUnfinished`, `WhenOneIsUnfinished`); at most one of them ever counts as running.
- The reported count of written registrations adds up the batches: it is the number of registrations the file
  leaves exactly when no N-number is in two of them (`Registry.CountIsTheTablesIff`), and otherwise more
  (`Registry.CountedTwice` is a file of two rows).
- A table of contents goes when the list just removed was its last, so one whose last removed list stood in a
  table of contents nested in it stays, without a list: `GuidePage.NestedTocStaysEmpty` is such a page,
  `TocStaysIff` says exactly when, and `TocsKeepAListOrGo` that where none is nested none is left so.
- Nothing makes the backup codes of a set differ, so a code drawn twice works twice: `Mfa.BackupCodeWorksOnceIff`
  says that an accepted code is spent exactly when no other unused row answers it.
- The bounce parser reads addresses while the configured bounce address has no `@`, which the signer does not
  make (`Bounce.AcceptedAddressReprints`, and `AcceptedWithoutReprinting` for each such address); ids of more
  than eighteen digits are signed and not read back.
- `record` accepts any field name a caller can pass through a mapping; a line reads back exactly when no name
  holds a space or an `=` (`Audit.LineReadsBack`; `SpacedNameIsLost` is one that does not).

## Model

| member | source | states |
|---|---|---|
| `AddressLaws.RunKeepsInv` | backend/apps/accounts/email_change.py:363-423 | after any run of steps no address belongs to two accounts, as a sign-in address or an unexpired recovery address, and every recovery address kept has an unspent undo link out to it |
| `AddressLaws.CompleteKeepsInv` | backend/apps/accounts/email_change.py:384-423 | completing a change, starting or extending the recovery address, keeps the invariant |
| `AddressLaws.UndoKeepsInv` | backend/apps/accounts/email_change.py:517-606 | undoing a change, restoring the address or closing the account, keeps the invariant |
| `AddressLaws.RequestKeepsInv` | backend/apps/accounts/email_change.py:170-241 | asking for a change keeps the invariant, unless it is a quiet request for a donor |
| `AddressLaws.RegisterKeepsInv` | backend/apps/accounts/services.py:592-622 | opening an account only at a free address keeps the invariant |
| `RecoveryLaws.ReachableSound` | backend/apps/accounts/services.py:592-622 | every site reached from an empty one keeps the invariant |
| `RecoveryLaws.UsableLinkTakesBack` | backend/apps/accounts/email_change.py:517-606 | an unexpired undo link to the recovery address kept, newer than the last undo, succeeds, finds the address free, and leaves the account signing in with it, without a pending change, a recovery address or a usable password, and open if it was |
| `RecoveryLaws.KeptAddressHasUsableLink` | backend/apps/accounts/email_change.py:400-423 | until the whole seconds it is kept for have passed, a recovery address has such a link out |
| `RecoveryLaws.OwnerCanTakeBack` | backend/apps/accounts/email_change.py:517-606 | so at the end of every run, until those whole seconds have passed, the owner of a recovery address can take the account back |
| `RecoveryLaws.OwnerCanTakeBackIff` | backend/apps/accounts/email_change.py:551-569 | and exactly until then, or while a notice mailed to that address in a later second than the keeping began has not lapsed |
| `AccountExamples.LastSecond` | backend/apps/accounts/email_change.py:551-569 | a site that keeps the invariant, where a recovery address is still kept and every undo link is refused |
| `RecoveryLaws.NoStepStealsAnAddress` | backend/apps/accounts/services.py:592-622 | no step gives an account an address that belonged to another at that moment |
| `RecoveryLaws.CompletingRevivesNothing` | backend/apps/accounts/email_change.py:384-406 | completing a change keeps no address that had lapsed, extends the one kept, and otherwise keeps the verified address moved from, or none |
| `RecoveryLaws.ReservationOutlastsRuns` | backend/apps/accounts/email_change.py:384-422 | until a recovery address expires, every run leaves it, no shorter, and signs undo links for the account to it alone, unless its owner follows an undo link |
| `RecoveryLaws.OwnRequestsAreHeldOff` | backend/apps/accounts/email_change.py:209-215 | while a recovery address is kept, whatever else has happened since, its account's own request for another address changes nothing |
| `RecoveryLaws.UndoSpendsUndoLinks` | backend/apps/accounts/email_change.py:652-655 | after an undo no undo link signed up to that moment is ever honoured again |
| `RecoveryLaws.NewPasswordSpendsChangeLinks` | backend/apps/accounts/email_change.py:375-380 | after an undo, a reset, a new password or a cleared one, no change link signed before ever moves the account |
| `LinkLaws.RequestGoesAheadIff` | backend/apps/accounts/email_change.py:170-241 | asking goes ahead exactly when the address is another, the actor may edit the account, it is not an own request while a recovery address is kept, and the address is free or nobody is to be told; otherwise nothing changes |
| `LinkLaws.RequestRefusalSays` | backend/apps/accounts/email_change.py:200-222 | and which refusal it meets: the same address, roles not held, a recent change with its end, a taken address, in that order |
| `LinkLaws.WhoIsToldOfAsking` | backend/apps/accounts/email_change.py:139-148 | asking signs one undo link, for the recovery address kept or else a verified own address, and otherwise none |
| `LinkLaws.AskedChangeCompletes` | backend/apps/accounts/email_change.py:231-423 | asking for a free address signs a link which, after every run, moves the account to that address, verified and with nothing pending, exactly while it is in date, the account is open with the addresses and the password it then had, and the address is free |
| `LinkLaws.TakenAddressGetsNoLink` | backend/apps/accounts/email_change.py:276-308 | asking for an address that is taken signs none |
| `LinkLaws.ResentLinkMoves` | backend/apps/accounts/email_change.py:276-308 | a link asked for again does the same as the first |
| `LinkLaws.CompletedLinkAgain` | backend/apps/accounts/email_change.py:363-380 | following a link a second time says the account has moved, while it is in date, and changes nothing |
| `LinkLaws.UndoWorksIff` | backend/apps/accounts/email_change.py:551-566 | an undo link works exactly when it is in date, newer than the last undo, of an account that is no donor, and to the recovery address while one is kept; a change that is only waiting is undone too |
| `LinkLaws.UndoLeaves` | backend/apps/accounts/email_change.py:568-606 | an undo leaves no pending change, no recovery address and no usable password; it puts the link's address back, verified, or keeps the same one, or closes the account when another has it; and nobody else is touched |
| `LinkLaws.AskedChangeCanBeUndone` | backend/apps/accounts/email_change.py:482-606 | asking for a change of a verified address signs a link to that address which, after every run without an undo, takes the account back while it is in date, moved by then or not; and no change link signed before ever moves it again |
| `LinkLaws.SentVerificationWorks` | backend/apps/accounts/services.py:843-958 | a verification link, after every run, proves the address exactly while it is in date and the account is open at it; a donor must choose a password, and becomes what the link says |
| `LinkLaws.SentPasswordLinkWorks` | backend/apps/accounts/services.py:727-825 | a password link, after every run, sets a password, proves the address, ends a pending change and opens the account exactly while it is in date, the account holds that address and password and is not blocked; and tells the recovery address of it |
| `AccountLaws.OneReplacementIsStored` | backend/apps/accounts/services.py:650-679 | of two new passwords over the same old one only the first is stored; it ends a pending change |
| `AccountLaws.ClearedPasswordIsGone` | backend/apps/accounts/status.py:291-305 | a password taken away leaves none, ends a pending change, and refuses one chosen over the old |
| `AccountLaws.PasswordNoticeGoesToRecovery` | backend/apps/accounts/notices.py:36-80 | the notice carries one undo link, to the recovery address while one is kept, and otherwise none |
| `AccountLaws.AddressIsProvedOnce` | backend/apps/accounts/services.py:1020-1051 | an address is proved only while it is the account's, and counts as new once |
| `AccountLaws.AddressOpensOneAccount` | backend/apps/accounts/services.py:155-179 | an account is opened at a free address alone, unproved and open, and no second one at the same address |
| `RecoveryLaws.ResetLinkWorksOnce` | backend/apps/accounts/api/views.py:457-482 | a password link that has set a password is refused ever after |
| `RecoveryLaws.QuietDonorRequest` | backend/apps/accounts/email_change.py:214-222 | a quiet request for a donor keeps the invariant exactly when it is refused or nobody keeps the address for recovery |
| `AccountExamples.QuietDonor` | backend/apps/accounts/email_change.py:214-222 | a site where such a request gives one address to two accounts |
| `StatusLaws.AddressMovesOnlyWhenAsked` | backend/apps/accounts/email_change.py:363-380 | an account with nothing pending keeps its address over every run in which nobody asks for another or undoes a change |
| `StatusLaws.EndedChangeStaysEnded` | backend/apps/accounts/status.py:71-105 | once an account is closed, or has another password, its address stays, also once it is opened again, until somebody asks for another or undoes a change |
| `StatusLaws.ClosedLinkCompletesIff` | backend/apps/accounts/status.py:71-105 | a change link signed before the closing moves the account later exactly when it has not lapsed, the account is open with the address and password it had, and the same address is pending again and free; and then somebody has asked for it again |
| `AccountExamples.ClosedLinkRevives` | backend/apps/accounts/status.py:71-105 | a run of closing, coming back and asking for the same address, after which the old link works |
| `StatusLaws.BlockedStaysClosed` | backend/apps/accounts/status.py:128-156 | a closed and blocked account stays so until another account that holds its guarded roles, or a system administrator, unblocks it |
| `StatusLaws.ClosedOpensAgain` | backend/apps/accounts/status.py:159-236 | an administrator may close an open account of somebody else whose guarded roles they hold, and opening it again, by them or its owner, gives back what it was but for a pending change, unless it is blocked |
| `StatusLaws.OpensIff` | backend/apps/accounts/status.py:128-236 | an account is opened, by those who may or by its owner, only while it is not blocked, and nothing else of it changes |
| `StatusLaws.LeftOpensAgain` | backend/apps/accounts/status.py:71-156 | who closes their own account opens it as it was, but for a pending change, unless it is blocked |
| `StatusLaws.BlockedUnblocks` | backend/apps/accounts/status.py:239-288 | blocking and unblocking give back the site as it was |
| `StatusLaws.TakenUndoCloses` | backend/apps/accounts/email_change.py:609-622 | an undo whose address went elsewhere leaves the account's address, closes it, and only such an account opens it again |
| `StatusLaws.SoleHolderIsLeftAlone` | backend/apps/accounts/services.py:503-520 | over every run of steps by others, the only holder of a guarded role, where nobody else is a system administrator, keeps its address, is asked for no other, is neither opened, closed nor blocked, and stays the only holder |
| `StatusLaws.OnlyThoseAllowedTouch` | backend/apps/accounts/services.py:503-520 | in one step, links mailed for it aside, an account's address, pending address and flags are touched only by itself and by those who hold its guarded roles, or a system administrator |
| `MarkLaws.VerifiedAddressIsProved` | backend/apps/accounts/services.py:998-1051 | an account newly marked as verified, or verified and newly moved, has just followed a signed link, in date, that was mailed to that very address |
| `MarkLaws.VerifiedAddressWasMailed` | backend/apps/accounts/services.py:868-958 | on every site reached from an empty one, a verified account is no donor, and a link was signed to its very address |
| `RoleLaws.EditMovesOnlyAllowedRoles` | backend/apps/accounts/services.py:444-500 | an edit moves a guarded role only for an actor who holds it or is a system administrator, never on the actor's own account, and after a real role write the superuser and staff flags are those the roles give |
| `RoleLaws.EditGoesThroughIff` | backend/apps/accounts/services.py:303-335 | an edit goes through exactly when it gives no donor a kind, and moves roles for somebody else by a system administrator, or by one who holds every guarded role it moves and unmakes no system administrator; otherwise nothing changes |
| `RoleLaws.EditRefusalSays` | backend/apps/accounts/services.py:444-483 | a refused edit says that nobody moves their own roles, then that the system administrator's role is moved by one alone |
| `RoleLaws.MayEditIff` | backend/apps/accounts/services.py:503-520 | a system administrator may edit any account, anybody else one whose every guarded role they hold |
| `RoleLaws.EditDoesAsAsked` | backend/apps/accounts/services.py:228-335 | then the account has the roles and the kind asked for, the flags those roles give when they moved, and the flags it had when they did not |
| `RoleLaws.MarkingMovesVerifierAlone` | backend/apps/accounts/services.py:338-355 | marking a verifier moves that role alone; it is refused only on the own account, and on a superuser who lacks the role of one |
| `RoleLaws.GuardedRoleMovesOnlyByHolders` | backend/apps/accounts/services.py:427-500 | over all steps, a guarded role is gained or lost only by such an edit |
| `RoleLaws.OwnRolesNeverChange` | backend/apps/accounts/services.py:467-471 | nobody, a system administrator included, changes their own roles |
| `RoleLaws.GuardedRolesAreConfined` | backend/apps/accounts/services.py:209-225 | a guarded role nobody held is held at the end of a run only when a system administrator or a command edited roles on the way |
| `RoleLaws.WithoutAdminsRolesOnlyShrink` | backend/apps/accounts/services.py:427-441 | while nobody is a system administrator, what accounts do never makes a guarded role held anew, and nobody becomes one |
| `RoleLaws.AnAdminIsAlwaysLeft` | backend/apps/accounts/status.py:159-195 | a run of steps by active accounts, undos that close an account aside, that starts with an active system administrator ends with one |
| `RoleLaws.ClosingLeavesAnAdminIff` | backend/apps/accounts/email_change.py:609-622 | an undo that closes its account leaves an active system administrator exactly when another account is one |
| `AccountExamples.LastAdminClosed` | backend/apps/accounts/email_change.py:609-622 | a run in which the reservation lapses, another account opens at the address, and a later notice closes the only one |
| `AccountService.Database.SendChangeLink` | backend/apps/accounts/email_change.py:276-308 | signs the completing link over the address, the pending address and the password, unless the address is taken |
| `AccountService.Database.SendNotice` | backend/apps/accounts/email_change.py:482-515 | signs the undo link for the address it is mailed to |
| `AccountService.Database.RequestEmailChange` | backend/apps/accounts/email_change.py:170-241 | writing the row field by field and mailing the two links is the request step, its four refusals included |
| `AccountService.Database.CompleteEmailChange` | backend/apps/accounts/email_change.py:363-423 | the field writes of a completion are the completing step |
| `AccountService.Database.UndoEmailChange` | backend/apps/accounts/email_change.py:517-606 | the field writes of an undo, its closing included, are the undoing step |
| `AccountService.Database.ReplacePassword` | backend/apps/accounts/services.py:650-679 | a new password is stored only over the one seen, and ends a pending change |
| `AccountService.Database.ClearPasswordAndEndSessions` | backend/apps/accounts/status.py:291-305 | takes the password away and ends a pending change |
| `AccountService.Database.SendPasswordChangedNotice` | backend/apps/accounts/notices.py:36-80 | the notice carries an undo link to the recovery address while one is kept |
| `AccountService.Database.ConfirmEmailAddress` | backend/apps/accounts/services.py:1020-1051 | an address is confirmed only when it is still the account's |
| `AccountService.Database.RegisterAccount` | backend/apps/accounts/services.py:155-179 | a new account is opened only at a free address, with a password or without |
| `AccountService.Database.UpgradeDonor` | backend/apps/accounts/services.py:961-975 | a donor's writes on choosing a password are those of `EmailChange.UpgradeDonor` |
| `AccountService.Database.SendEmailVerification` | backend/apps/accounts/services.py:843-904 | signs the verification link over the address, with the upgrade for a donor, who is mailed no other |
| `AccountService.Database.VerifyEmail` | backend/apps/accounts/services.py:907-958 | following such a link is the verifying step: its refusals, the password a donor must choose, and the mark |
| `AccountService.Database.SendPasswordLink` | backend/apps/accounts/services.py:751-825 | signs the password link over the address and the password; a reset is refused where an invitation is not |
| `AccountService.Database.ConfirmPasswordReset` | backend/apps/accounts/api/views.py:457-482 | choosing a password through such a link is the resetting step: the password, the mark, the reopening and the notice, or none of them |
| `AccountService.Database.UpdateAccount` | backend/apps/accounts/services.py:244-335 | the writes are `AccountStatus.UpdateAccount` |
| `AccountService.Database.SetVerifier` | backend/apps/accounts/services.py:338-355 | the writes are `AccountStatus.SetVerifier` |
| `AccountService.Database.DeactivateOwnAccount` | backend/apps/accounts/status.py:71-105 | the writes are `AccountStatus.DeactivateOwn` |
| `AccountService.Database.DeactivateAccount` | backend/apps/accounts/status.py:159-195 | the writes are `AccountStatus.Deactivate` |
| `AccountService.Database.ReactivateOwnAccount` | backend/apps/accounts/status.py:128-156 | the writes are `AccountStatus.ReactivateOwn` |
| `AccountService.Database.ReactivateAccount` | backend/apps/accounts/status.py:198-236 | the writes are `AccountStatus.Reactivate` |
| `AccountService.Database.SetReactivationBlocked` | backend/apps/accounts/status.py:239-288 | the writes are `AccountStatus.SetReactivationBlocked` |
| `Lockout.AdmittedInAnySpan` | backend/apps/accounts/lockout.py:107-153 | in any span of ticks into which n whole windows fit, the gate admits at most attempts * (n + 2) failures of a count nothing forgets |
| `Lockout.WrongCodesInAnySpan` | backend/apps/accounts/lockout.py:171-185 | so wrong codes are bounded however often the short count is cleared, without `clear_all_failures` |
| `Lockout.WaitIsExact` | backend/apps/accounts/lockout.py:107-118 | the wait reported is long enough, and no shorter whole number of seconds is |
| `Lockout.GateOpensIff` | backend/apps/accounts/lockout.py:107-118 | an attempt is let through exactly while every count that is on is below its limit |
| `Lockout.RefusalIsEarned` | backend/apps/accounts/lockout.py:107-153 | over every run from an empty table, nobody is refused before the whole limit of some count was let through as failures within its last window |
| `Lockout.RecordFailureCounts` | backend/apps/accounts/lockout.py:121-153 | a failure adds one to each count it goes into, opening a window where none is running, and to no other |
| `Lockout.NoticesADayApart` | backend/apps/accounts/lockout.py:156-168 | over every run the notices to one account are at least a day apart |
| `Lockout.NoticeIff` | backend/apps/accounts/lockout.py:121-168 | a failure mails its account exactly when it brings a count to its limit and no notice mark is running |
| `Lockout.DeadRowsChangeNothing` | backend/apps/accounts/lockout.py:138-153 | deleting rows whose windows have passed changes no later answer |
| `Lockout.OnlyOldRowsGo` | backend/apps/accounts/lockout.py:138-153 | a failure deletes, of everybody else's rows, exactly those whose windows ended more than a day ago |
| `LockoutStore.Store.CountOne` | backend/apps/accounts/lockout.py:121-135 | the stored row is reset and incremented as the rule counts |
| `LockoutStore.Store.LockedOut` | backend/apps/accounts/lockout.py:156-168 | an owner is mailed only when the notice mark is new |
| `LockoutStore.Store.RecordFailure` | backend/apps/accounts/lockout.py:138-153 | the loop over the limits, and the deletion of old rows, are the recording rule |
| `LockoutStore.Store.LockoutWait` | backend/apps/accounts/lockout.py:107-118 | the loop finds the longest wait |
| `Lockout.ClearingLeavesCodeWait` | backend/apps/accounts/lockout.py:171-178 | after a clearing its subject waits for wrong codes alone, and everybody else as before |
| `Lockout.ClearingAllFrees` | backend/apps/accounts/lockout.py:181-185 | after this one its subject need not wait, everybody else waits as before, and no notice mark is lost |
| `Mfa.StepAcceptedIff` | backend/apps/accounts/mfa.py:278-295 | a six-digit code is accepted exactly when it is the code of a step within one of now and after the last step used (section 5.2 of RFC 6238) |
| `Mfa.DeviceCodeAcceptedIff` | backend/apps/accounts/mfa.py:342-358 | checking accepts exactly such a code as the device's, remembers its step and changes nothing else |
| `Mfa.TypedAnyhow` | backend/apps/accounts/mfa.py:273-275 | a character typed for another makes no difference exactly when they are the same but for case, or both spaces or hyphens |
| `Mfa.SeparatorsMakeNoDifference` | backend/apps/accounts/mfa.py:273-275 | a character typed in between makes none exactly when it is a space or a hyphen |
| `Mfa.BackupAcceptedIff` | backend/apps/accounts/mfa.py:317-368 | a backup code is accepted exactly when a device is confirmed, it has ten characters, and it opens an unused row |
| `Mfa.NewSetReplacesOld` | backend/apps/accounts/mfa.py:391-423 | replacing a set takes an accepted code; then each new code is accepted, and no code that opens no row of the new set |
| `Mfa.OldKeysStillOpen` | backend/apps/accounts/mfa.py:312-339 | after a change of the site's key every backup code good before is good still |
| `Mfa.AcceptedCodesBounded` | backend/apps/accounts/mfa.py:342-368 | the accepted steps strictly increase, so from step s to step e at most e - s + 3 codes are accepted |
| `Mfa.EachBackupCodeSpendsOneRow` | backend/apps/accounts/mfa.py:317-339 | an accepted backup code uses up exactly one unused row, and nothing else does |
| `Mfa.AcceptedBackupsAreSpent` | backend/apps/accounts/mfa.py:317-339 | until the set is replaced, the backup codes accepted are exactly the rows used up |
| `Mfa.SetStaysFull` | backend/apps/accounts/mfa.py:391-423 | used and unused rows make up the full count over every run |
| `Mfa.BackupCodeWorksOnce` | backend/apps/accounts/mfa.py:317-339 | a backup code that one unused row answers is refused, once accepted, ever after, until the set is replaced |
| `Mfa.BackupCodeWorksOnceIff` | backend/apps/accounts/mfa.py:317-339 | and exactly such a code is |
| `Mfa.SharedBackupCodeWorksTwice` | backend/apps/accounts/mfa.py:317-339 | a code that two unused rows answer is accepted twice running |
| `Mfa.PendingTakesFourWrongCodes` | backend/apps/accounts/mfa.py:631-673 | a pending sign-in survives four wrong codes and not the fifth, and its owner is warned once |
| `Mfa.UsedUpIff` | backend/apps/accounts/mfa.py:631-673 | a wrong code says it used the sign-in up exactly when none is left, and one with five wrong codes may not be finished |
| `MfaStore.FactorStore.FindStep` | backend/apps/accounts/mfa.py:278-295 | the loop over the steps finds the last one that matches |
| `MfaStore.FactorStore.SpendRecoveryCode` | backend/apps/accounts/mfa.py:317-339 | the loops over rows and keys find the row spent, and mark it alone |
| `MfaStore.FactorStore.Check` | backend/apps/accounts/mfa.py:342-368 | the device and the rows are written as the checking rule says |
| `MfaStore.FactorStore.RegenerateCodes` | backend/apps/accounts/mfa.py:391-423 | the set is replaced only for an accepted code |
| `Mfa.BegunSignInLasts` | backend/apps/accounts/mfa.py:579-652 | a sign-in just begun may be finished after n wrong codes exactly when n is under five, five minutes have not passed, its account may sign in or come back with it, and its password is the same |
| `MfaStore.Session.WrongCode` | backend/apps/accounts/mfa.py:655-673 | a wrong code is counted, warned of once, and ends the pending sign-in at the limit |
| `MfaStore.Session.Read` | backend/apps/accounts/mfa.py:610-652 | a pending sign-in that may not be finished is cleared |
| `SearchIndex.TrimmedWordSearch` | backend/caldart/guide_search.py:117-174 | searching the trimmed index for a word gives the full index's answer without the hidden pages, in the same order |
| `SearchIndex.TrimmedNameSearch` | backend/caldart/guide_search.py:117-187 | so does looking up the entries of a name |
| `SearchIndex.WordLeftIff` | backend/caldart/guide_search.py:138-174 | a word is left exactly when one of its pages is, as one number or a list of several |
| `SearchIndex.NameLeftIff` | backend/caldart/guide_search.py:145-187 | a name, a hidden page's title among them, is left exactly when one of its entries is on a page left |
| `SearchIndex.TrimmedDocnames` | backend/caldart/guide_search.py:124-137 | the docnames left are the full list without the hidden ones, in order |
| `SearchIndex.TrimmedWordsInRange` | backend/caldart/guide_search.py:163-174 | every number a word is left on is the number of a page left |
| `SearchIndex.TrimmedEntriesInRange` | backend/caldart/guide_search.py:177-187 | every entry left of a name opens with the number of a page left |
| `SearchIndex.PerPageListsAligned` | backend/caldart/guide_search.py:125-152 | every per-page list keeps the value of a page left at the page's new number |
| `SearchIndex.PerPageListLength` | backend/caldart/guide_search.py:135-137 | and holds nothing else |
| `SearchIndex.TrimsIff` | backend/caldart/guide_search.py:117-160 | an index is trimmed exactly when it has docnames and every field that is there has its shape |
| `SearchIndex.UntrimmedField` | backend/caldart/guide_search.py:134-152 | every other field passes through, and the index gains none but the trimmed ones |
| `SearchIndex.BooleansAreNumbers` | backend/caldart/guide_search.py:163-174 | a page number written as a boolean counts as the integer it equals |
| `SearchIndex.TrimTwice` | backend/caldart/guide_search.py:117-152 | trimming for one set of pages and then another is trimming once for both |
| `SearchIndex.TrimmedIsShaped` | backend/caldart/guide_search.py:117-160 | the trimmed index has the shape Sphinx writes, over the docnames left |
| `SearchIndex.RenumberEntries` | backend/caldart/guide_search.py:177-187 | the loop keeps the entries of pages left, renumbered, and refuses exactly the shapes it must |
| `GuidePage.NothingHiddenIsLeft` | backend/caldart/guide_search.py:207-234 | on the page served no link, in the page or its head, leads to a hidden page, and no search box to a hidden search page |
| `GuidePage.UntouchedIffClean` | backend/caldart/guide_search.py:205-233 | a page is served as built exactly when it holds none of those |
| `GuidePage.TrimmedPageTwice` | backend/caldart/guide_search.py:191-234 | trimming a second time changes nothing |
| `GuidePage.OpenEntriesSurvive` | backend/caldart/guide_search.py:207-242 | every navigation link that is not hidden stays, in document order, inside the very elements it was in |
| `GuidePage.LivingItemsSurvive` | backend/caldart/guide_search.py:207-216 | the items of the navigation served are those built, without those whose link is hidden and that hold no open entry, and what is nested under them |
| `GuidePage.NoDeadEntryIsLeft` | backend/caldart/guide_search.py:207-216 | once the entries are trimmed, one with a hidden link is left only where an open entry is nested under it |
| `GuidePage.OutsideIsUnchanged` | backend/caldart/guide_search.py:222-230 | outside the navigation all text and elements stay, but for the hidden links themselves, which leave what they held |
| `GuidePage.NoEmptyListIsLeft` | backend/caldart/guide_search.py:251-262 | on a page that lost anything, every list left in the navigation holds an item |
| `GuideCaptions.CaptionsServed` | backend/caldart/guide_search.py:251-262 | on a page that lost anything, the captions served are, in order, those of the page as built whose lists show an item that is left, and each still stands just before its list |
| `GuideCaptions.ServedIsLeft` | backend/caldart/guide_search.py:232-262 | for every page, what is served is what reading the lists from right to left leaves: each that goes takes the nearest caption left of it, when nothing else stays between |
| `GuideCaptions.CaptionGoesIff` | backend/caldart/guide_search.py:251-258 | among its siblings a caption goes exactly when such a list comes to it |
| `GuideCaptions.CaptionGoesWithItsList` | backend/caldart/guide_search.py:251-258 | a sidebar of one caption, over a list whose only entry is hidden, is served empty |
| `GuidePage.TocStaysIff` | backend/caldart/guide_search.py:251-262 | a table of contents that loses a list and is left without one stays exactly when the last list it lost stood in another nested in it |
| `GuidePage.TocsKeepAListOrGo` | backend/caldart/guide_search.py:191-262 | on a page where none is nested in another, every table of contents that still held a list when the empty lists were looked for holds one as served, or is gone |
| `GuidePage.NestedTocStaysEmpty` | backend/caldart/guide_search.py:251-262 | a page whose table of contents is served without a list |
| `GuideRoles.Walk.RolesOf` | docs/_ext/guide_roles.py:207-226 | the memoised walk ends on every toctree, cyclic ones too, begins on no page twice, and on an acyclic one answers and remembers the recursive rule's roles |
| `GuideRoles.Walk.PageRoles` | docs/_ext/guide_roles.py:198-232 | the file written holds the restricted pages and their roles, as the rule gives them |
| `GuideRoles.OwnRolesAreWritten` | docs/_ext/guide_roles.py:198-232 | a page that names roles itself is in the file with exactly those it names that are roles, in role order, whatever its toctrees list, cyclic or not |
| `GuideRoles.DeclaredIff` | docs/_ext/guide_roles.py:105-113 | a slug is declared exactly when it is not empty and some piece of the field between commas is that slug with whitespace around it |
| `GuideRoles.DeclaredAround` | docs/_ext/guide_roles.py:105-113 | a field declares what is before a comma, and then what is after it |
| `GuideRoles.WrittenFieldDeclares` | docs/_ext/guide_roles.py:105-113 | slugs written between commas, with any whitespace around them, are declared, in the order written |
| `GuideRoles.GroupOpensIff` | docs/_ext/guide_roles.py:212-226 | a reader opens a group page exactly when they open a child by a known role, or no child names one |
| `GuideRoles.GroupOpensWithAChild` | docs/_ext/guide_roles.py:198-204 | where declared slugs are known roles, exactly when they can open at least one child |
| `GuideRoles.FileSaysWhoMayOpen` | docs/_ext/guide_roles.py:228-232 | a reader may open a page by the rule exactly when the file says so |
| `GuideRoles.RolesAreKnown` | docs/_ext/guide_roles.py:105-113 | where declared slugs are known roles, so is every role a page is kept to |
| `Registry.Register.WriteRegistrations` | backend/apps/aircraft/registry.py:561-593 | for every batch size the batched upserts and the deletion leave what the rows say last of each N-number, over what already carried the stamp; the count adds up the batches, and the rows skipped are those of no known type |
| `Registry.CountIsTheTablesIff` | backend/apps/aircraft/registry.py:569-593 | that count is the number of registrations the rows leave exactly when no N-number is in two batches, and is never less |
| `Registry.CountedTwice` | backend/apps/aircraft/registry.py:569-593 | a file of two rows, in batches of one, that is counted twice and leaves one registration |
| `Registry.BatchesAreFull` | backend/apps/aircraft/registry.py:587-589 | every batch but the last holds as many N-numbers as a batch does, and the last fewer |
| `Registry.BatchesHoldWhatIsWritten` | backend/apps/aircraft/registry.py:569-589 | together the batches hold exactly the N-numbers the rows leave |
| `Registry.LastRowsAre` | backend/apps/aircraft/registry.py:561-587 | what the rows say is exactly the N-numbers with a row of a known type, each with the values of the last such row |
| `Registry.OnlyTheFileIsLeft` | backend/apps/aircraft/registry.py:590-590 | from a table without the fresh stamp, that is all the import leaves |
| `Registry.ColumnsAreTheLastRows` | backend/apps/aircraft/registry.py:573-586 | column by column, a registration holds what the last row of its N-number says, the registrant's name as shown cut at 160 characters, the id of the row's type and the fresh stamp |
| `TypeFold.Catalog.FoldCustomTypes` | backend/apps/aircraft/registry.py:515-538 | the loop, in any order of the hand-added types, points every reference at its twin, deletes the types with one and counts them |
| `TypeFold.ReferencesKeepTheirNames` | backend/apps/aircraft/registry.py:515-538 | after the fold every reference leads to a type of the same names but for case: from a hand-added type to the FAA's type of those names with the first code, wherever the FAA lists them, and otherwise where it led before |
| `TypeFold.FirstListedIsTwin` | backend/apps/aircraft/registry.py:524-530 | searching the FAA's types in the order of their codes finds the one of those names whose code sorts before all the others' |
| `TypeFold.TwinIffListed` | backend/apps/aircraft/registry.py:524-530 | there is one exactly when the FAA lists those names |
| `TypeFold.WhatIsKept` | backend/apps/aircraft/registry.py:515-538 | the types left are exactly the FAA's and the hand-added ones whose names the FAA does not list |
| `TypeFold.FoldTwice` | backend/apps/aircraft/registry.py:515-538 | the FAA's types all stay, and a second fold finds nothing to do |
| `ImportRuns.AtMostOneRuns` | backend/apps/aircraft/registry.py:627-631 | at every moment of every run at most one import counts as running |
| `ImportRuns.WhenOneIsUnfinished` | backend/apps/aircraft/registry.py:442-456 | a start leaves one unfinished row always from Run now, and from the timer exactly when it found none |
| `ImportRuns.StartingClosesTheStale` | backend/apps/aircraft/registry.py:651-682 | Run now is refused exactly while an import runs; otherwise it closes every unfinished row as failed, leaves the finished ones, and adds its own |
| `ImportRuns.ClaimingAddsARow` | backend/apps/aircraft/registry.py:442-456 | the timer is refused exactly then too, and otherwise adds a row and touches no other |
| `ImportRuns.GoodWasReported` | backend/apps/aircraft/registry.py:415-440 | over every run the log calls an import good only when its process reported that it succeeded |
| `ImportRuns.RunningIsLeftAlone` | backend/apps/aircraft/registry.py:627-682 | an import that counts as running is left alone until it reports |
| `ImportRuns.TwoMayBeUnfinished` | backend/apps/aircraft/registry.py:442-456 | two runs of the timer that leave two |
| `ImportRuns.ImportLog.StartImport` | backend/apps/aircraft/registry.py:651-682 | refuses while an import runs, otherwise closes the unfinished rows and starts one, closed at once when its process does not start |
| `ImportRuns.ImportLog.ClaimUnattendedRun` | backend/apps/aircraft/registry.py:442-456 | refuses while an import runs, otherwise starts one |
| `Casing.TitleCaseIsCaseOnly` | backend/caldart/casing.py:107-123 | title case changes only letter case of the whitespace-collapsed input |
| `Casing.TitleCaseTwice` | backend/caldart/casing.py:107-123 | and is idempotent |
| `CasingLaws.TitleByWord` | backend/caldart/casing.py:107-123 | word by word, what carries a digit is kept, and every other word has capitals exactly where it or a hyphenated part begins, and after an apostrophe with a lone character before it |
| `Casing.NameIsCaseOnly` | backend/caldart/casing.py:126-173 | so does casing a first or a last name, and it leaves no whitespace to collapse |
| `Casing.NameTwice` | backend/caldart/casing.py:126-173 | and it is idempotent, the particle rule of last names included |
| `Casing.PersonNamesSettle` | backend/caldart/casing.py:126-156 | a first name and a last name settle at once, and the two rules differ in nothing but case |
| `CasingLaws.NamesByWord` | backend/caldart/casing.py:126-173 | a name in both cases stays as typed; of any other, word by word, particles past the first word are small, in a last name the first of several too, suffixes past the first are in capitals, and every other word is cased part by part |
| `CasingLaws.InitialsAreCapitals` | backend/caldart/casing.py:260-263 | a part without a vowel is all in capitals |
| `Casing.BusinessNameIsCaseOnly` | backend/caldart/casing.py:176-225 | so does casing a business's name |
| `Casing.BusinessNameTwice` | backend/caldart/casing.py:176-244 | and it is idempotent, though the abbreviation rule reads the capitals the first pass wrote |
| `CasingLaws.BusinessByWord` | backend/caldart/casing.py:176-244 | a business's name in both cases stays; of any other, word by word, abbreviations and words with a period are in capitals, small words past the first are small, short words without a vowel and a leading airport code before a business keep the registry's capitals, and every other word is in title case |
| `CasingLaws.PointsComeOff` | backend/caldart/casing.py:202-203 | points and commas at a word's ends make no difference to whether it marks a business |
| `CasingLoops.TitleCasePart` | backend/caldart/casing.py:284-290 | the loop over pieces capitalizes exactly the first letter and one after a lone letter and an apostrophe |
| `CasingLoops.NameCasePart` | backend/caldart/casing.py:260-274 | the loop over tokens capitalizes exactly the letters that open a piece after a period, or after a lone letter and an apostrophe, and the one after Mc; a part without a vowel is all capitals |
| `Bounce.SignedAddressReadsBack` | backend/caldart/mail.py:420-457 | a signed address reads back as its id and signature exactly when the bounce address has an `@` and the id one to eighteen digits |
| `Bounce.SignatureDigits` | backend/caldart/mail.py:86-93 | a signature is sixteen lower-case hexadecimal digits |
| `Bounce.AcceptedAddressReprints` | backend/caldart/mail.py:436-457 | an address the parser accepts is, but for case, the signed address of the tag read, exactly when the bounce address has an `@` |
| `Bounce.AcceptedWithoutReprinting` | backend/caldart/mail.py:436-457 | for every bounce address without one, an address that is accepted and does not print back |
| `Bounce.OwnBouncesMatch` | backend/caldart/mail.py:460-472 | the site's own signed address is read back and matches while the key it was signed under is one of the keys |
| `Bounce.TaggedLocalPartFits` | backend/caldart/mail.py:78-86 | every tag fits 64 characters exactly on a local part within the length allowed |
| `Audit.LineReadsBack` | backend/caldart/audit.py:190-196 | every line accepted reads back as its fields in order, each value as the words it stood for, exactly when no field name holds a space or an `=` |
| `Audit.WrittenIff` | backend/caldart/audit.py:166-196 | a record is written exactly when its action is a slug, its actor and target are known, and every field may be carried |
| `Audit.RenderedIff` | backend/caldart/audit.py:251-271 | a field may carry flags, numbers, slugs, nothing, and lists of slugs, and nothing else |
| `Audit.RenderedApart` | backend/caldart/audit.py:251-271 | the two flags, and any two numbers, are written apart |
| `Audit.SubjectsApart` | backend/caldart/audit.py:228-248 | so are any two actors and any two targets |
| `Audit.SpacedNameIsLost` | backend/caldart/audit.py:190-196 | a line with a field named by a space does not |
| `Audit.ValueReadsBack` | backend/caldart/audit.py:251-271 | every rendered value is free of spaces and `=`, and split on commas gives its words back, none for an empty one |
| `Audit.SafeSlugIsSlug` | backend/caldart/audit.py:215-225 | every string becomes a slug, and the slugs are exactly the strings left as they are |
| `Audit.SafeSlugTwice` | backend/caldart/audit.py:215-225 | and doing so twice is doing so once |
| `Insurance.StampVouchesForWhatIsOnFile` | backend/apps/aircraft/verification.py:42-125 | over every run of edits and verifications a stamped aircraft has an expiration on file, and a verifier's step of the run put that very stamp on the very six fields now on file |
| `Insurance.VerificationChangedIff` | backend/apps/aircraft/verification.py:106-124 | verifying raises `verification_changed` exactly when the stamp it leaves is not the one it found, and says whether it was made anew or ended |
| `Insurance.StampKeptIff` | backend/apps/aircraft/verification.py:99-114 | a stamp is kept exactly by a verdict that confirms the six fields unchanged with an expiration on file |
| `Insurance.EditTellsWhatMoved` | backend/apps/aircraft/services.py:112-127 | an edit writes the columns it names alone, and its history row and event name exactly those whose value moved; one of the insurance's ends the verification |
| `Insurance.VerdictDecidesStamp` | backend/apps/aircraft/verification.py:99-114 | a verdict without an expiration on file leaves no stamp; with one, the stamp kept when the six fields did not move, and a new one otherwise |
| `Insurance.Aircraft.ClearStaleInsurance` | backend/apps/aircraft/verification.py:42-60 | ends a verification exactly when a column moved is the insurance's |
| `Insurance.Aircraft.RecordUpdated` | backend/apps/aircraft/services.py:112-127 | clears, records and raises as the edit rule says |
| `Insurance.Aircraft.VerifyInsurance` | backend/apps/aircraft/verification.py:63-125 | the writes in sequence are the verifying rule |

## Left out

- Account deletion, merging, `create_admin` (which may mark an address on the operator's word) and the seeds: no step removes a row, and accounts are opened only at a free address, unmarked.
- Mail delivery: the link of a message is signed in the step that asks for it, not when the message leaves, and a refused message is not modelled.
- Sessions, audit records and events, but for the insurance's notices and the lockout's mails.
- Stale copies of a row in memory: each service function is one atomic step, as its locks make it.
- Cryptography: signatures, password hashes, one-time codes and keyed hashes are abstract values or functions.
- Characters outside ASCII, but for the typographic apostrophe in names: case and whitespace are ASCII's.
- RoleLaws.AnAdminIsAlwaysLeft: excludes the undo that has to close its account, whose effect `ClosingLeavesAnAdminIff` states exactly.
- AccountService.Database.UpdateAccount: an edit here is of roles and kind, and of the kinds a person may choose; names, `friend_on` and contact fields are not modelled.
- AccountService.Database.RegisterAccount: names and the profile beside the account are not modelled.
- AccountService.Database.UpgradeDonor: writes no names and no `friend_on` either.
- AccountService.Database.ConfirmPasswordReset: a password link is also void once its account has signed in since, which is not modelled, nor are the rules a new password must meet.
- AccountService.Database.VerifyEmail: the rules a donor's new password must meet are not modelled.
- The gate and the counting of a failed attempt are one step; attempts that run at once between the two are not modelled.
- `link_is_hidden`'s URL resolution: which links are hidden is any predicate.
- GuidePage.TrimmedPage: works on a tree of values and answers a new one, where the code removes nodes from the parsed page in place; parsing, printing and byte-for-byte output are not part of it.
- GuidePage.OpenEntriesSurvive: asks for pages whose links hold no link directly and are not themselves a region of the page, as HTML has them.
- GuidePage.NoEmptyListIsLeft: asks for lists without captions or tables of contents inside, as Sphinx builds them.
- GuideCaptions.CaptionsServed: asks for captions that stand just before their lists, as Sphinx builds them; `GuideCaptions.ServedIsLeft` is for every page.
- `check_roles`, `signed_out_pages` and the files' writing: checks and look-ups with one outcome each.
- Reading the FAA's files, the types' upsert, aliases, and `display_make`/`display_model`: rows arrive parsed, types by id, and the shown name of a registrant is any function.
- The database's collation: FAA codes sort character by character (`TypeFold.Before`).
- Registry.Register.WriteRegistrations: the batch is a map, so the order of inserts within one upsert is not modelled.
- The import's own transaction and its failure: an import ends with or without a failure recorded on its row.
- `owner_name` and `n_number` normalization on saving an aircraft, record creation and deletion, and `Aircraft.updated_by`.
- `_seed_verification`, which stamps aircraft whatever is on file, is not a step of the insurance model.
- Reports, labels, search ranking, serializers, permissions, throttles and the front end: look-ups and wiring.
