/** Second-factor checking as it runs: the device and the code rows of one account, updated in place. */
module MfaStore {
  import opened Outcomes
  import opened Decimal
  import opened Mfa

  class FactorStore {
    const crypto: Crypto
    var device: Option<Device>
    var codes: seq<BackupCode>

    constructor (crypto: Crypto, factor: Factor)
      ensures this.crypto == crypto && View() == factor
    {
      this.crypto := crypto;
      device, codes := factor.device, factor.codes;
    }

    function View(): Factor
      reads this
    {
      Factor(device, codes)
    }

    method FindStep(secret: string, last: Option<int>, code: string, now: int) returns (matched: Option<int>)
      ensures matched == MatchingStep(crypto, secret, last, code, now)
    {
      var candidate := NormalizedCode(code);
      if |candidate| != TOTP_DIGITS || !AllDigits(candidate) {
        return None;
      }
      matched := None;
      var low := now - TOTP_DRIFT_STEPS;
      for step := low to now + TOTP_DRIFT_STEPS + 1
        invariant matched == LastMatch(crypto, secret, last, candidate, low, step)
      {
        var isFresh := last.None? || step > last.value;
        if crypto.otp(secret, step) == candidate && isFresh {
          matched := Some(step);
        }
      }
    }

    /** Marks the row `code` opens as used; false when there is none. */
    method SpendRecoveryCode(code: string) returns (spent: bool)
      modifies this`codes
      ensures
        var i := SpentRow(crypto, old(codes), code);
        && spent == i.Some?
        && codes == if spent then old(codes)[i.value := old(codes)[i.value].(used := true)] else old(codes)
    {
      var candidate := NormalizedCode(code);
      if |candidate| != RECOVERY_CODE_LENGTH {
        return false;
      }
      var matched: Option<nat> := None;
      for i := 0 to |codes|
        invariant matched == LastOpened(crypto, codes[..i], candidate)
        invariant codes == old(codes)
      {
        var row := codes[i];
        var opens := false;
        for k := 0 to |crypto.keys|
          invariant opens <==> exists j :: 0 <= j < k && crypto.hash(row.salt, candidate, crypto.keys[j]) == row.codeHash
        {
          if crypto.hash(row.salt, candidate, crypto.keys[k]) == row.codeHash {
            opens := true;
          }
        }
        assert codes[..i + 1][..i] == codes[..i];
        if !row.used && opens {
          matched := Some(i);
        }
      }
      assert codes[..|codes|] == codes;
      LastOpenedOpens(crypto, codes, candidate);
      if matched.None? {
        return false;
      }
      codes := codes[matched.value := codes[matched.value].(used := true)];
      return true;
    }

    method Check(code: string, now: int) returns (kind: CodeKind)
      modifies this`device, this`codes
      ensures (kind, View()) == CheckCode(crypto, old(View()), code, now)
    {
      if device.None? {
        return Refused;
      }
      var step := FindStep(device.value.secret, device.value.lastUsedStep, code, now);
      if step.Some? {
        device := Some(device.value.(lastUsedStep := step));
        return Totp(step.value);
      }
      var spent := SpendRecoveryCode(code);
      return if spent then Recovery else Refused;
    }

    method RegenerateCodes(code: string, now: int, renewed: seq<BackupCode>) returns (kind: CodeKind)
      modifies this`device, this`codes
      ensures (kind, View()) == Regenerate(crypto, old(View()), code, now, renewed)
    {
      kind := Check(code, now);
      if kind != Refused {
        codes := renewed;
      } else {
        EachBackupCodeSpendsOneRow(crypto, old(View()), code, now);
      }
    }
  }

  /** The pending sign-in a browser session holds. */
  class Session {
    var pending: Option<Pending>

    constructor ()
      ensures pending == None
    {
      pending := None;
    }

    method Begin(user: nat, authHash: string, now: nat, reactivate: bool)
      modifies this
      ensures pending == Some(BeginPending(user, authHash, now, reactivate))
    {
      pending := Some(Pending(user, authHash, now, 0, false, reactivate));
    }

    /** Counts one wrong code; `warns` when the owner is mailed about it. */
    method WrongCode() returns (usedUp: bool, warns: bool)
      modifies this
      ensures (pending, usedUp, warns) == CountWrongCode(old(pending))
    {
      if pending.None? {
        return true, false;
      }
      warns := !pending.value.warned;
      var attempts := pending.value.attempts + 1;
      if attempts >= PENDING_ATTEMPTS {
        pending := None;
        return true, warns;
      }
      pending := Some(pending.value.(attempts := attempts, warned := true));
      return false, warns;
    }

    /** The pending sign-in while it may be finished; it is cleared once it may not. */
    method Read(account: Option<SignInAccount>, now: int) returns (found: Option<Pending>)
      modifies this
      ensures found == pending
      ensures pending == if old(pending).Some? && MayFinish(old(pending).value, account, now) then old(pending) else None
    {
      if pending.Some? && !MayFinish(pending.value, account, now) {
        pending := None;
      }
      found := pending;
    }
  }
}
