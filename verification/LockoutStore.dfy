/** The lockout as it runs: rows of the table reset, counted and deleted in place. */
module LockoutStore {
  import opened Outcomes
  import opened Lockout

  class Store {
    var rows: Rows
    const settings: Settings

    constructor (settings: Settings)
      ensures rows == map[] && this.settings == settings
    {
      this.settings := settings;
      rows := map[];
    }

    /** Adds one to the count under `key`, opening a window when needed, and returns it. */
    method CountOne(key: Key, seconds: nat, now: nat) returns (count: nat)
      requires seconds > 0
      modifies this`rows
      ensures rows == old(rows)[key := Counted(old(rows), key, seconds, now)]
      ensures count == Counted(old(rows), key, seconds, now).count
    {
      var row := if key in rows then rows[key] else Row(0, now + Ticks(seconds));
      if row.until <= now {
        row := Row(0, now + Ticks(seconds));
      }
      row := row.(count := row.count + 1);
      rows := rows[key := row];
      count := row.count;
    }

    /** Marks the lockout of `subject`, and answers how many notices that mails. */
    method LockedOut(subject: Subject, hasAccount: bool, now: nat) returns (notices: nat)
      modifies this`rows
      ensures hasAccount ==>
        var mark := Counted(old(rows), Key(NoticeMark, subject), NOTICE_SECONDS, now);
        rows == old(rows)[Key(NoticeMark, subject) := mark] && notices == if mark.count == 1 then 1 else 0
      ensures !hasAccount ==> rows == old(rows) && notices == 0
    {
      if !hasAccount {
        return 0;
      }
      var marks := CountOne(Key(NoticeMark, subject), NOTICE_SECONDS, now);
      return if marks == 1 then 1 else 0;
    }

    method RecordFailure(subject: Subject, hasAccount: bool, code: bool, now: nat) returns (notices: nat)
      modifies this`rows
      ensures Tally(rows, notices) == Lockout.RecordFailure(settings, old(rows), subject, hasAccount, code, now)
    {
      var limits := Limits(settings, code);
      notices := 0;
      ghost var first := rows;
      for i := 0 to |limits|
        invariant Tally(rows, notices) == CountLimits(first, limits[..i], subject, hasAccount, now)
      {
        var limit := limits[i];
        assert limits[..i + 1][..i] == limits[..i];
        var count := CountOne(Key(limit.name, subject), limit.seconds, now);
        if count == limit.attempts {
          var mailed := LockedOut(subject, hasAccount, now);
          notices := notices + mailed;
        }
      }
      assert limits[..|limits|] == limits;
      rows := map k | k in rows && !(rows[k].until + DAY < now) :: rows[k];
    }

    /** Whole seconds until `subject` may be tried again, or None when it may be now. */
    method LockoutWait(subject: Subject, now: nat) returns (wait: Option<nat>)
      ensures wait == Lockout.LockoutWait(settings, rows, subject, now)
    {
      var limits := Limits(settings, true);
      wait := None;
      for i := 0 to |limits|
        invariant wait == LongestWait(rows, limits[..i], subject, now)
      {
        assert limits[..i + 1][..i] == limits[..i];
        var limit := limits[i];
        var key := Key(limit.name, subject);
        if key in rows && rows[key].until > now && rows[key].count >= limit.attempts {
          var seconds := SecondsIn(rows[key].until - now);
          wait := if wait.None? || wait.value < seconds then Some(seconds) else wait;
        }
      }
      assert limits[..|limits|] == limits;
    }

    method ClearFailures(subject: Subject)
      modifies this`rows
      ensures rows == Lockout.ClearFailures(old(rows), subject)
    {
      rows := rows - {Key(Failures, subject)};
    }

    method ClearAllFailures(subject: Subject)
      modifies this`rows
      ensures rows == Lockout.ClearAllFailures(old(rows), subject)
    {
      rows := rows - {Key(Failures, subject), Key(CodeFailures, subject)};
    }
  }
}
