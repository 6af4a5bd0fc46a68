/** Second-factor codes: what is accepted, what that spends, and the bounds over runs. */
module Mfa {
  import opened Outcomes
  import opened Decimal
  import opened Text

  const TOTP_DIGITS: nat := 6
  const TOTP_DRIFT_STEPS: int := 1
  const RECOVERY_CODE_COUNT: nat := 10
  const RECOVERY_CODE_LENGTH: nat := 10

  /** The code generator, the keyed hash of a backup code, and the site's keys, old ones included. */
  datatype Crypto = Crypto(otp: (string, int) -> string, hash: (string, string, string) -> nat, keys: seq<string>)

  datatype Device = Device(secret: string, lastUsedStep: Option<int>)

  datatype BackupCode = BackupCode(salt: string, codeHash: nat, used: bool)

  /** The second factor of one account: its confirmed device, if any, and its backup codes. */
  datatype Factor = Factor(device: Option<Device>, codes: seq<BackupCode>)

  datatype CodeKind = Totp(step: int) | Recovery | Refused

  // ------------------------------------------------------- checking a code

  /** A code as it is compared: in lower case, and without the spaces and hyphens it may be typed with. */
  function NormalizedCode(code: string): string {
    if code == "" then ""
    else if IsSpace(code[0]) || code[0] == '-' then NormalizedCode(code[1..])
    else [LowerChar(code[0])] + NormalizedCode(code[1..])
  }

  /** True when `candidate` is the code of `step`, a step not used yet. */
  predicate Matches(crypto: Crypto, secret: string, last: Option<int>, candidate: string, step: int) {
    crypto.otp(secret, step) == candidate && (last.None? || step > last.value)
  }

  /** The last matching step from `low` to below `high`. */
  function LastMatch(crypto: Crypto, secret: string, last: Option<int>, candidate: string, low: int, high: int): Option<int>
    decreases high - low
  {
    if high <= low then None
    else if Matches(crypto, secret, last, candidate, high - 1) then Some(high - 1)
    else LastMatch(crypto, secret, last, candidate, low, high - 1)
  }

  function MatchingStep(crypto: Crypto, secret: string, last: Option<int>, code: string, now: int): Option<int> {
    var candidate := NormalizedCode(code);
    if |candidate| != TOTP_DIGITS || !AllDigits(candidate) then None
    else LastMatch(crypto, secret, last, candidate, now - TOTP_DRIFT_STEPS, now + TOTP_DRIFT_STEPS + 1)
  }

  /** True when `row` is unused and `candidate` is its code under one of the keys. */
  predicate Opens(crypto: Crypto, row: BackupCode, candidate: string) {
    !row.used && exists k :: k in crypto.keys && crypto.hash(row.salt, candidate, k) == row.codeHash
  }

  /** The last of `rows` that `candidate` opens. */
  function LastOpened(crypto: Crypto, rows: seq<BackupCode>, candidate: string): Option<nat> {
    if rows == [] then None
    else if Opens(crypto, rows[|rows| - 1], candidate) then Some(|rows| - 1)
    else LastOpened(crypto, rows[..|rows| - 1], candidate)
  }

  /** The row a backup code spends, if any. */
  function SpentRow(crypto: Crypto, rows: seq<BackupCode>, code: string): (i: Option<nat>)
    ensures i.Some? ==> i.value < |rows| && Opens(crypto, rows[i.value], NormalizedCode(code))
  {
    var candidate := NormalizedCode(code);
    if |candidate| != RECOVERY_CODE_LENGTH then None
    else
      LastOpenedOpens(crypto, rows, candidate);
      LastOpened(crypto, rows, candidate)
  }

  lemma {:induction false} LastOpenedOpens(crypto: Crypto, rows: seq<BackupCode>, candidate: string)
    ensures
      var i := LastOpened(crypto, rows, candidate);
      && (i.Some? ==> i.value < |rows| && Opens(crypto, rows[i.value], candidate))
      && (i.None? ==> forall j :: 0 <= j < |rows| ==> !Opens(crypto, rows[j], candidate))
  {
    if rows != [] && !Opens(crypto, rows[|rows| - 1], candidate) {
      LastOpenedOpens(crypto, rows[..|rows| - 1], candidate);
    }
  }

  /** What checking `code` at time step `now` answers and leaves. */
  function CheckCode(crypto: Crypto, factor: Factor, code: string, now: int): (CodeKind, Factor) {
    if factor.device.None? then (Refused, factor)
    else
      var device := factor.device.value;
      var step := MatchingStep(crypto, device.secret, device.lastUsedStep, code, now);
      if step.Some? then (Totp(step.value), factor.(device := Some(device.(lastUsedStep := step))))
      else
        var i := SpentRow(crypto, factor.codes, code);
        if i.None? then (Refused, factor)
        else (Recovery, factor.(codes := factor.codes[i.value := factor.codes[i.value].(used := true)]))
  }

  /** A fresh set of unused backup codes. */
  predicate FreshSet(codes: seq<BackupCode>) {
    |codes| == RECOVERY_CODE_COUNT && forall c :: c in codes ==> !c.used
  }

  /** Replaces the backup codes by `fresh` when `code` is accepted. */
  function Regenerate(crypto: Crypto, factor: Factor, code: string, now: int, renewed: seq<BackupCode>): (CodeKind, Factor) {
    var (kind, checked) := CheckCode(crypto, factor, code, now);
    if kind == Refused then (Refused, factor) else (kind, checked.(codes := renewed))
  }

  // -------------------------------------------------- what acceptance means

  lemma {:induction false} LastMatchMatches(
    crypto: Crypto, secret: string, last: Option<int>, candidate: string, low: int, high: int)
    ensures
      var step := LastMatch(crypto, secret, last, candidate, low, high);
      && (step.Some? ==>
            && low <= step.value < high && Matches(crypto, secret, last, candidate, step.value)
            && forall s :: step.value < s < high ==> !Matches(crypto, secret, last, candidate, s))
      && (step.None? ==> forall s :: low <= s < high ==> !Matches(crypto, secret, last, candidate, s))
    decreases high - low
  {
    if low < high && !Matches(crypto, secret, last, candidate, high - 1) {
      LastMatchMatches(crypto, secret, last, candidate, low, high - 1);
    }
  }

  /**
   A code of six digits is accepted exactly when it is the code of a step within one of now and
   after every step accepted before.
   */
  lemma StepAcceptedIff(crypto: Crypto, secret: string, last: Option<int>, code: string, now: int)
    ensures
      var step := MatchingStep(crypto, secret, last, code, now);
      var candidate := NormalizedCode(code);
      && (step.Some? <==>
            && |candidate| == TOTP_DIGITS && AllDigits(candidate)
            && exists s :: now - 1 <= s <= now + 1 && (last.None? || s > last.value) && crypto.otp(secret, s) == candidate)
      && (step.Some? ==>
            && now - 1 <= step.value <= now + 1
            && (last.Some? ==> step.value > last.value)
            && crypto.otp(secret, step.value) == candidate)
  {
    var candidate := NormalizedCode(code);
    LastMatchMatches(crypto, secret, last, candidate, now - 1, now + 2);
    if s :| now - 1 <= s <= now + 1 && (last.None? || s > last.value) && crypto.otp(secret, s) == candidate {
      assert Matches(crypto, secret, last, candidate, s);
    }
  }

  /**
   Checking accepts a device code exactly when the device takes it, and then remembers its step, and nothing else
   changes.
   */
  lemma DeviceCodeAcceptedIff(crypto: Crypto, factor: Factor, code: string, now: int)
    ensures
      var candidate := NormalizedCode(code);
      var (kind, after) := CheckCode(crypto, factor, code, now);
      && (kind.Totp? <==>
            && factor.device.Some? && |candidate| == TOTP_DIGITS && AllDigits(candidate)
            && var device := factor.device.value;
               exists s :: now - 1 <= s <= now + 1
                 && (device.lastUsedStep.None? || s > device.lastUsedStep.value) && crypto.otp(device.secret, s) == candidate)
      && (kind.Totp? ==>
            && now - 1 <= kind.step <= now + 1 && crypto.otp(factor.device.value.secret, kind.step) == candidate
            && after == factor.(device := Some(Device(factor.device.value.secret, Some(kind.step)))))
  {
    if factor.device.Some? {
      StepAcceptedIff(crypto, factor.device.value.secret, factor.device.value.lastUsedStep, code, now);
    }
  }

  function Unused(codes: seq<BackupCode>): nat {
    if codes == [] then 0
    else Unused(codes[..|codes| - 1]) + if codes[|codes| - 1].used then 0 else 1
  }

  lemma {:induction false} SpendingLowersUnused(codes: seq<BackupCode>, i: nat)
    requires i < |codes| && !codes[i].used
    ensures Unused(codes[i := codes[i].(used := true)]) == Unused(codes) - 1
  {
    var spent := codes[i := codes[i].(used := true)];
    var n := |codes| - 1;
    if i == n {
      assert spent[..n] == codes[..n];
    } else {
      assert spent[..n] == codes[..n][i := codes[i].(used := true)];
      SpendingLowersUnused(codes[..n], i);
    }
  }

  /** A backup code uses up exactly one unused row; a refusal, or a device code, uses up none. */
  lemma EachBackupCodeSpendsOneRow(crypto: Crypto, factor: Factor, code: string, now: int)
    ensures
      var (kind, after) := CheckCode(crypto, factor, code, now);
      && |after.codes| == |factor.codes|
      && (kind == Recovery ==> Unused(after.codes) == Unused(factor.codes) - 1 && after.device == factor.device)
      && (kind != Recovery ==> after.codes == factor.codes)
      && (kind == Refused ==> after == factor)
  {
    var (kind, after) := CheckCode(crypto, factor, code, now);
    if kind == Recovery {
      SpendingLowersUnused(factor.codes, SpentRow(crypto, factor.codes, code).value);
    }
  }

  // --------------------------------------------------- codes as they are typed

  predicate IsSeparator(c: char) { IsSpace(c) || c == '-' }

  lemma {:induction false} NormalizedTogether(a: string, b: string)
    ensures NormalizedCode(a + b) == NormalizedCode(a) + NormalizedCode(b)
  {
    if a == "" {
      assert a + b == b;
    } else {
      assert (a + b)[0] == a[0] && (a + b)[1..] == a[1..] + b;
      NormalizedTogether(a[1..], b);
    }
  }

  lemma NormalizedAlone(c: char)
    ensures NormalizedCode([c]) == if IsSeparator(c) then "" else [LowerChar(c)]
  {
    assert [c][1..] == "";
  }

  /** A character typed for another makes no difference exactly when both are separators, or the same but for case. */
  lemma TypedAnyhow(before: string, c: char, d: char, after: string)
    ensures NormalizedCode(before + [c] + after) == NormalizedCode(before + [d] + after) <==>
            (IsSeparator(c) && IsSeparator(d)) || (!IsSeparator(c) && !IsSeparator(d) && LowerChar(c) == LowerChar(d))
  {
    NormalizedAround(before, c, after);
    NormalizedAround(before, d, after);
    NormalizedAlone(c);
    NormalizedAlone(d);
    SameMiddle(NormalizedCode(before), NormalizedCode([c]), NormalizedCode([d]), NormalizedCode(after));
  }

  /** A character typed in between makes no difference exactly when it is a space or a hyphen. */
  lemma SeparatorsMakeNoDifference(before: string, c: char, after: string)
    ensures NormalizedCode(before + [c] + after) == NormalizedCode(before + after) <==> IsSeparator(c)
  {
    var x, y := NormalizedCode(before), NormalizedCode(after);
    NormalizedAround(before, c, after);
    NormalizedTogether(before, after);
    NormalizedAlone(c);
    SameMiddle(x, NormalizedCode([c]), "", y);
    assert x + "" + y == x + y;
  }

  lemma NormalizedAround(before: string, c: char, after: string)
    ensures NormalizedCode(before + [c] + after) == NormalizedCode(before) + NormalizedCode([c]) + NormalizedCode(after)
  {
    NormalizedTogether(before + [c], after);
    NormalizedTogether(before, [c]);
  }

  lemma SameMiddle(x: string, y: string, z: string, w: string)
    requires |y| <= 1 && |z| <= 1
    ensures x + y + w == x + z + w <==> y == z
  {
    if x + y + w == x + z + w {
      assert |x + y + w| == |x| + |y| + |w| && |x + z + w| == |x| + |z| + |w|;
      if |y| == 1 {
        assert (x + y + w)[|x|] == y[0] && (x + z + w)[|x|] == z[0];
      }
    }
  }

  // ------------------------------------------------------ backup codes, exactly

  /** A backup code is accepted exactly when a device is confirmed, it has ten characters, and opens an unused row. */
  lemma BackupAcceptedIff(crypto: Crypto, factor: Factor, code: string, now: int)
    ensures CheckCode(crypto, factor, code, now).0 == Recovery <==>
      && factor.device.Some? && |NormalizedCode(code)| == RECOVERY_CODE_LENGTH
      && exists i :: 0 <= i < |factor.codes| && Opens(crypto, factor.codes[i], NormalizedCode(code))
  {
    LastOpenedOpens(crypto, factor.codes, NormalizedCode(code));
  }

  /** The rows a set of codes is stored as: each under its salt, hashed under the key now in use. */
  function StoredSet(crypto: Crypto, salts: seq<string>, codes: seq<string>): seq<BackupCode>
    requires |salts| == |codes| && crypto.keys != []
  {
    seq(|codes|, i requires 0 <= i < |codes| =>
      BackupCode(salts[i], crypto.hash(salts[i], NormalizedCode(codes[i]), crypto.keys[0]), false))
  }

  /**
   Replacing a set takes a code that is accepted, and otherwise changes nothing.  Then each code of the new set is
   accepted, and no other backup code is but one that opens a row of the new set: the old ones are gone.
   */
  lemma NewSetReplacesOld(
      crypto: Crypto, factor: Factor, code: string, now: int, salts: seq<string>, codes: seq<string>, typed: string,
      later: int)
    requires |salts| == |codes| && crypto.keys != []
    requires forall i :: 0 <= i < |codes| ==> |NormalizedCode(codes[i])| == RECOVERY_CODE_LENGTH
    ensures
      var renewed := StoredSet(crypto, salts, codes);
      var (kind, after) := Regenerate(crypto, factor, code, now, renewed);
      && kind == CheckCode(crypto, factor, code, now).0
      && (kind == Refused ==> after == factor)
      && (kind != Refused ==>
            && (typed in codes ==> CheckCode(crypto, after, typed, later).0 == Recovery)
            && (CheckCode(crypto, after, typed, later).0 == Recovery ==>
                  exists i :: 0 <= i < |codes| && Opens(crypto, renewed[i], NormalizedCode(typed))))
  {
    var renewed := StoredSet(crypto, salts, codes);
    var (kind, after) := Regenerate(crypto, factor, code, now, renewed);
    EachBackupCodeSpendsOneRow(crypto, factor, code, now);
    if kind != Refused {
      BackupAcceptedIff(crypto, after, typed, later);
      if typed in codes {
        var i :| 0 <= i < |codes| && codes[i] == typed;
        assert crypto.keys[0] in crypto.keys && Opens(crypto, after.codes[i], NormalizedCode(typed));
      }
    }
  }

  /** Changing the site's key, the old one kept among its keys, leaves every backup code good. */
  lemma OldKeysStillOpen(crypto: Crypto, key: string, factor: Factor, code: string, now: int)
    requires CheckCode(crypto, factor, code, now).0 == Recovery
    ensures CheckCode(crypto.(keys := [key] + crypto.keys), factor, code, now).0 == Recovery
  {
    var rotated := crypto.(keys := [key] + crypto.keys);
    BackupAcceptedIff(crypto, factor, code, now);
    BackupAcceptedIff(rotated, factor, code, now);
    var i :| 0 <= i < |factor.codes| && Opens(crypto, factor.codes[i], NormalizedCode(code));
    var k :| k in crypto.keys && crypto.hash(factor.codes[i].salt, NormalizedCode(code), k) == factor.codes[i].codeHash;
    assert k in rotated.keys && Opens(rotated, factor.codes[i], NormalizedCode(code));
  }

  // -------------------------------------------------------------------- runs

  /** An attempt: a code, and the fresh backup codes it asks for, if it asks for any. */
  datatype Attempt = Attempt(code: string, now: int, renewed: Option<seq<BackupCode>>)

  function Try(crypto: Crypto, factor: Factor, attempt: Attempt): (CodeKind, Factor) {
    if attempt.renewed.None? then CheckCode(crypto, factor, attempt.code, attempt.now)
    else Regenerate(crypto, factor, attempt.code, attempt.now, attempt.renewed.value)
  }

  function Run(crypto: Crypto, factor: Factor, attempts: seq<Attempt>): Factor
    decreases |attempts|
  {
    if attempts == [] then factor else Run(crypto, Try(crypto, factor, attempts[0]).1, attempts[1..])
  }

  /** The time steps of the device codes a run accepts, in order. */
  function AcceptedSteps(crypto: Crypto, factor: Factor, attempts: seq<Attempt>): seq<int>
    decreases |attempts|
  {
    if attempts == [] then []
    else
      var (kind, after) := Try(crypto, factor, attempts[0]);
      (if kind.Totp? then [kind.step] else []) + AcceptedSteps(crypto, after, attempts[1..])
  }

  predicate Between(attempts: seq<Attempt>, first: int, last: int) {
    forall a :: a in attempts ==> first <= a.now <= last
  }

  predicate Increasing(steps: seq<int>) {
    forall i, j :: 0 <= i < j < |steps| ==> steps[i] < steps[j]
  }

  lemma TryMovesStep(crypto: Crypto, factor: Factor, attempt: Attempt)
    requires factor.device.Some?
    ensures
      var (kind, after) := Try(crypto, factor, attempt);
      && after.device.Some? && after.device.value.secret == factor.device.value.secret
      && (kind.Totp? ==>
            && after.device.value.lastUsedStep == Some(kind.step)
            && attempt.now - 1 <= kind.step <= attempt.now + 1
            && (factor.device.value.lastUsedStep.Some? ==> factor.device.value.lastUsedStep.value < kind.step))
      && (!kind.Totp? ==> after.device == factor.device)
  {
    var device := factor.device.value;
    StepAcceptedIff(crypto, device.secret, device.lastUsedStep, attempt.code, attempt.now);
  }

  /** Each of `steps` is from `low` to `high`. */
  predicate Within(steps: seq<int>, low: int, high: int) {
    forall i :: 0 <= i < |steps| ==> low <= steps[i] <= high
  }

  /** Each of `steps` is after the last step a device has used, if it has used one. */
  predicate AfterLast(steps: seq<int>, last: Option<int>) {
    last.Some? ==> forall i :: 0 <= i < |steps| ==> last.value < steps[i]
  }

  lemma LedByStep(step: int, rest: seq<int>, low: int, high: int, last: Option<int>)
    requires Increasing(rest) && Within(rest, low, high) && AfterLast(rest, Some(step))
    requires low <= step <= high && (last.Some? ==> last.value < step)
    ensures Increasing([step] + rest) && Within([step] + rest, low, high) && AfterLast([step] + rest, last)
  {
    forall i, j | 0 <= i < j < |rest| + 1 ensures ([step] + rest)[i] < ([step] + rest)[j] {
      assert ([step] + rest)[j] == rest[j - 1];
    }
  }

  /** The first attempt of a run: what it leaves, and the step of the code it accepts, if it accepts a device code. */
  lemma FirstAttempt(crypto: Crypto, factor: Factor, attempts: seq<Attempt>, first: int, last: int)
    returns (after: Factor, lead: Option<int>)
    requires factor.device.Some? && attempts != [] && Between(attempts, first, last)
    ensures after.device.Some? && Between(attempts[1..], first, last)
    ensures AcceptedSteps(crypto, factor, attempts)
         == (if lead.Some? then [lead.value] else []) + AcceptedSteps(crypto, after, attempts[1..])
    ensures lead.None? ==> after.device == factor.device
    ensures lead.Some? ==>
      && after.device.value.lastUsedStep == lead && first - 1 <= lead.value <= last + 1
      && (factor.device.value.lastUsedStep.Some? ==> factor.device.value.lastUsedStep.value < lead.value)
  {
    var (kind, left) := Try(crypto, factor, attempts[0]);
    assert attempts[0] in attempts;
    TryMovesStep(crypto, factor, attempts[0]);
    after, lead := left, if kind.Totp? then Some(kind.step) else None;
  }

  lemma {:induction false} AcceptedStepsIncrease(crypto: Crypto, factor: Factor, attempts: seq<Attempt>, first: int, last: int)
    requires factor.device.Some? && Between(attempts, first, last)
    ensures
      var steps := AcceptedSteps(crypto, factor, attempts);
      Increasing(steps) && Within(steps, first - 1, last + 1) && AfterLast(steps, factor.device.value.lastUsedStep)
    decreases |attempts|
  {
    if attempts != [] {
      var after, lead := FirstAttempt(crypto, factor, attempts, first, last);
      var rest := AcceptedSteps(crypto, after, attempts[1..]);
      AcceptedStepsIncrease(crypto, after, attempts[1..], first, last);
      if lead.Some? {
        LedByStep(lead.value, rest, first - 1, last + 1, factor.device.value.lastUsedStep);
      } else {
        assert [] + rest == rest;
      }
    }
  }

  lemma {:induction false} IncreasingFits(steps: seq<int>, low: int, high: int)
    requires Increasing(steps) && low <= high + 1 && Within(steps, low, high)
    ensures |steps| <= high - low + 1
  {
    if steps != [] {
      var n := |steps| - 1;
      IncreasingFits(steps[..n], low, steps[n] - 1);
    }
  }

  /**
   For one device the accepted steps strictly increase, so no more codes are accepted from step
   `first` to step `last` than the steps between them and three.
   */
  lemma AcceptedCodesBounded(crypto: Crypto, factor: Factor, attempts: seq<Attempt>, first: int, last: int)
    requires factor.device.Some? && first <= last && Between(attempts, first, last)
    ensures Increasing(AcceptedSteps(crypto, factor, attempts))
    ensures |AcceptedSteps(crypto, factor, attempts)| <= last - first + 3
  {
    AcceptedStepsIncrease(crypto, factor, attempts, first, last);
    IncreasingFits(AcceptedSteps(crypto, factor, attempts), first - 1, last + 1);
  }

  /** Every set asked for in the run is a fresh one. */
  predicate RenewsFresh(attempts: seq<Attempt>) {
    forall a :: a in attempts && a.renewed.Some? ==> FreshSet(a.renewed.value)
  }

  /** A full set stays a full set over every run: used and unused always make up the count. */
  lemma {:induction false} SetStaysFull(crypto: Crypto, factor: Factor, attempts: seq<Attempt>)
    requires |factor.codes| == RECOVERY_CODE_COUNT && RenewsFresh(attempts)
    ensures |Run(crypto, factor, attempts).codes| == RECOVERY_CODE_COUNT
    decreases |attempts|
  {
    if attempts != [] {
      assert attempts[0] in attempts;
      EachBackupCodeSpendsOneRow(crypto, factor, attempts[0].code, attempts[0].now);
      SetStaysFull(crypto, Try(crypto, factor, attempts[0]).1, attempts[1..]);
    }
  }

  /** How many backup codes a run accepts. */
  function BackupsAccepted(crypto: Crypto, factor: Factor, attempts: seq<Attempt>): nat
    decreases |attempts|
  {
    if attempts == [] then 0
    else
      var (kind, after) := Try(crypto, factor, attempts[0]);
      (if kind == Recovery then 1 else 0) + BackupsAccepted(crypto, after, attempts[1..])
  }

  predicate RenewsNothing(attempts: seq<Attempt>) {
    forall a :: a in attempts ==> a.renewed.None?
  }

  /** Until the set is replaced, the backup codes accepted are exactly the rows used up. */
  lemma {:induction false} AcceptedBackupsAreSpent(crypto: Crypto, factor: Factor, attempts: seq<Attempt>)
    requires RenewsNothing(attempts)
    ensures BackupsAccepted(crypto, factor, attempts) + Unused(Run(crypto, factor, attempts).codes) == Unused(factor.codes)
    decreases |attempts|
  {
    if attempts != [] {
      assert attempts[0] in attempts;
      EachBackupCodeSpendsOneRow(crypto, factor, attempts[0].code, attempts[0].now);
      AcceptedBackupsAreSpent(crypto, Try(crypto, factor, attempts[0]).1, attempts[1..]);
    }
  }

  // ---------------------------------------------------- a spent code is spent

  /** No unused row answers to `candidate`. */
  predicate Shut(crypto: Crypto, codes: seq<BackupCode>, candidate: string) {
    forall i :: 0 <= i < |codes| ==> !Opens(crypto, codes[i], candidate)
  }

  /** At most one unused row answers to `candidate`. */
  predicate OpensOne(crypto: Crypto, codes: seq<BackupCode>, candidate: string) {
    forall i, j :: 0 <= i < j < |codes| ==> !(Opens(crypto, codes[i], candidate) && Opens(crypto, codes[j], candidate))
  }

  lemma SpendingShuts(crypto: Crypto, factor: Factor, code: string, now: int)
    requires CheckCode(crypto, factor, code, now).0 == Recovery
    requires OpensOne(crypto, factor.codes, NormalizedCode(code))
    ensures Shut(crypto, CheckCode(crypto, factor, code, now).1.codes, NormalizedCode(code))
  {
    var i := SpentRow(crypto, factor.codes, code).value;
    var after := CheckCode(crypto, factor, code, now).1.codes;
    forall j | 0 <= j < |after| ensures !Opens(crypto, after[j], NormalizedCode(code)) {
      if j != i {
        assert after[j] == factor.codes[j];
      }
    }
  }

  lemma CheckKeepsShut(crypto: Crypto, factor: Factor, code: string, now: int, candidate: string)
    requires Shut(crypto, factor.codes, candidate)
    ensures Shut(crypto, CheckCode(crypto, factor, code, now).1.codes, candidate)
  {
    var after := CheckCode(crypto, factor, code, now).1.codes;
    forall j | 0 <= j < |after| ensures !Opens(crypto, after[j], candidate) {
      assert after[j] == factor.codes[j] || after[j].used;
    }
  }

  lemma {:induction false} RunKeepsShut(crypto: Crypto, factor: Factor, attempts: seq<Attempt>, candidate: string)
    requires Shut(crypto, factor.codes, candidate) && RenewsNothing(attempts)
    ensures Shut(crypto, Run(crypto, factor, attempts).codes, candidate)
    decreases |attempts|
  {
    if attempts != [] {
      assert attempts[0] in attempts;
      CheckKeepsShut(crypto, factor, attempts[0].code, attempts[0].now, candidate);
      RunKeepsShut(crypto, Try(crypto, factor, attempts[0]).1, attempts[1..], candidate);
    }
  }

  /** A backup code only one row answers is refused, once accepted, in every later state until the set is replaced. */
  lemma BackupCodeWorksOnce(crypto: Crypto, factor: Factor, code: string, now: int, attempts: seq<Attempt>, later: int)
    requires CheckCode(crypto, factor, code, now).0 == Recovery
    requires OpensOne(crypto, factor.codes, NormalizedCode(code)) && RenewsNothing(attempts)
    ensures
      var after := Run(crypto, CheckCode(crypto, factor, code, now).1, attempts);
      CheckCode(crypto, after, code, later) == (Refused, after)
  {
    SpendingShuts(crypto, factor, code, now);
    var after := Run(crypto, CheckCode(crypto, factor, code, now).1, attempts);
    RunKeepsShut(crypto, CheckCode(crypto, factor, code, now).1, attempts, NormalizedCode(code));
    LastOpenedOpens(crypto, after.codes, NormalizedCode(code));
  }

  /** A backup code that two unused rows answer is accepted twice running. */
  lemma SharedBackupCodeWorksTwice(crypto: Crypto, factor: Factor, code: string, now: int, later: int)
    requires CheckCode(crypto, factor, code, now).0 == Recovery
    requires !OpensOne(crypto, factor.codes, NormalizedCode(code))
    ensures CheckCode(crypto, CheckCode(crypto, factor, code, now).1, code, later).0 == Recovery
  {
    var candidate := NormalizedCode(code);
    var spent := SpentRow(crypto, factor.codes, code).value;
    var after := CheckCode(crypto, factor, code, now).1;
    var i, j :| 0 <= i < j < |factor.codes| && Opens(crypto, factor.codes[i], candidate) && Opens(crypto, factor.codes[j], candidate);
    var other := if i == spent then j else i;
    assert after.codes[other] == factor.codes[other];
    LastOpenedOpens(crypto, after.codes, candidate);
  }

  /** `code` is refused at `later`, after the run `attempts`. */
  predicate RefusedAfter(crypto: Crypto, factor: Factor, attempts: seq<Attempt>, code: string, later: int) {
    CheckCode(crypto, Run(crypto, factor, attempts), code, later).0 == Refused
  }

  /**
   A backup code accepted once is refused ever after, until the set is replaced, exactly when no other
   unused row answered it.
   */
  lemma BackupCodeWorksOnceIff(crypto: Crypto, factor: Factor, code: string, now: int)
    requires CheckCode(crypto, factor, code, now).0 == Recovery
    ensures OpensOne(crypto, factor.codes, NormalizedCode(code)) <==>
      forall attempts, later :: RenewsNothing(attempts) ==>
        RefusedAfter(crypto, CheckCode(crypto, factor, code, now).1, attempts, code, later)
  {
    var after := CheckCode(crypto, factor, code, now).1;
    if OpensOne(crypto, factor.codes, NormalizedCode(code)) {
      forall attempts, later | RenewsNothing(attempts) ensures RefusedAfter(crypto, after, attempts, code, later) {
        BackupCodeWorksOnce(crypto, factor, code, now, attempts, later);
      }
    } else {
      SharedBackupCodeWorksTwice(crypto, factor, code, now, now);
      assert !RefusedAfter(crypto, after, [], code, now);
    }
  }

  // --------------------------------------------------- the pending sign-in

  const PENDING_SECONDS: nat := 300
  const PENDING_ATTEMPTS: nat := 5

  /** A sign-in past its password, waiting for a code. */
  datatype Pending = Pending(user: nat, authHash: string, started: nat, attempts: nat, warned: bool, reactivate: bool)

  /** What a pending sign-in needs to know of the account it names. */
  datatype SignInAccount = SignInAccount(isDonor: bool, isActive: bool, isBlocked: bool, authHash: string)

  function BeginPending(user: nat, authHash: string, now: nat, reactivate: bool): Pending {
    Pending(user, authHash, now, 0, false, reactivate)
  }

  /** True when the pending sign-in may still be finished, at `now` in seconds. */
  predicate MayFinish(pending: Pending, account: Option<SignInAccount>, now: int) {
    && now - pending.started <= PENDING_SECONDS
    && pending.attempts < PENDING_ATTEMPTS
    && account.Some?
    && !account.value.isDonor
    && !account.value.isBlocked
    && (account.value.isActive || pending.reactivate)
    && pending.authHash == account.value.authHash
  }

  /** One wrong code: what is left of the sign-in, whether it was used up, whether a warning goes out. */
  function CountWrongCode(session: Option<Pending>): (Option<Pending>, bool, bool) {
    if session.None? then (None, true, false)
    else
      var pending := session.value;
      var attempts := pending.attempts + 1;
      if attempts >= PENDING_ATTEMPTS then (None, true, !pending.warned)
      else (Some(pending.(attempts := attempts, warned := true)), false, !pending.warned)
  }

  /** The session after `n` wrong codes, and the warnings mailed on the way. */
  function WrongCodes(session: Option<Pending>, n: nat): (Option<Pending>, nat) {
    if n == 0 then (session, 0)
    else
      var (before, mailed) := WrongCodes(session, n - 1);
      var (after, _, warns) := CountWrongCode(before);
      (after, mailed + if warns then 1 else 0)
  }

  /** A pending sign-in takes four wrong codes and no more, and its owner is warned once. */
  lemma {:induction false} PendingTakesFourWrongCodes(begun: Pending, n: nat)
    requires begun.attempts == 0 && !begun.warned
    ensures
      var (left, mailed) := WrongCodes(Some(begun), n);
      && (n < PENDING_ATTEMPTS ==> left == Some(begun.(attempts := n, warned := n > 0)))
      && (n >= PENDING_ATTEMPTS ==> left.None?)
      && mailed == if n == 0 then 0 else 1
  {
    if n > 0 {
      PendingTakesFourWrongCodes(begun, n - 1);
    }
  }

  /**
   A sign-in just begun may still be finished after `n` wrong codes exactly when they are fewer than five, five
   minutes have not passed, its account may sign in, or come back with it, and the password has not changed.
   */
  lemma BegunSignInLasts(
      user: nat, authHash: string, started: nat, reactivate: bool, n: nat, account: SignInAccount, now: int)
    ensures
      var left := WrongCodes(Some(BeginPending(user, authHash, started, reactivate)), n).0;
      (left.Some? && MayFinish(left.value, Some(account), now)) <==>
        && n < PENDING_ATTEMPTS && now - started <= PENDING_SECONDS
        && !account.isDonor && !account.isBlocked && (account.isActive || reactivate)
        && account.authHash == authHash
  {
    PendingTakesFourWrongCodes(BeginPending(user, authHash, started, reactivate), n);
  }

  /**
   A wrong code is told to have used the sign-in up exactly when none is left of it, as when there was none; and one that
   holds five wrong codes, however it came to, may not be finished.
   */
  lemma UsedUpIff(session: Option<Pending>, account: Option<SignInAccount>, now: int)
    ensures
      var (left, usedUp, warns) := CountWrongCode(session);
      && (usedUp <==> left.None?)
      && (left.Some? <==> session.Some? && session.value.attempts + 1 < 5)
      && (warns <==> session.Some? && !session.value.warned)
    ensures session.Some? && session.value.attempts >= 5 ==> !MayFinish(session.value, account, now)
  {
  }
}
