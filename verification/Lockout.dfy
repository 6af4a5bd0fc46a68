/** The counts behind the sign-in lockout: what each operation does, and the bounds over runs. */
module Lockout {
  import opened Outcomes

  // ------------------------------------------------------------- the counts

  /** A subject's counts: failed attempts, wrong codes, and the mark of a mailed notice. */
  datatype CountName = Failures | CodeFailures | NoticeMark

  type Subject = string

  /** What a stored row is keyed by; the digest of it tells no two keys apart that differ. */
  datatype Key = Key(name: CountName, subject: Subject)

  datatype Row = Row(count: nat, until: nat)

  type Rows = map<Key, Row>

  /** The four settings, as read: a limit that is not positive is off. */
  datatype Settings = Settings(attempts: int, seconds: int, codeAttempts: int, codeSeconds: int)

  datatype Limit = Limit(name: CountName, attempts: int, seconds: int)

  /** The ticks of the clock in `seconds`. */
  function Ticks(seconds: int): int { seconds * 1_000_000 }

  /** The whole seconds it takes for `ticks` to pass. */
  function SecondsIn(ticks: int): int { (ticks + 999_999) / 1_000_000 }

  const NOTICE_SECONDS: nat := 24 * 60 * 60

  const DAY: nat := 24 * 60 * 60 * 1_000_000

  predicate IsOn(limit: Limit) { limit.attempts > 0 && limit.seconds > 0 }

  /** The limits a failure counts against; a wrong code has one more. */
  function Limits(settings: Settings, code: bool): seq<Limit> {
    var short := Limit(Failures, settings.attempts, settings.seconds);
    var long := Limit(CodeFailures, settings.codeAttempts, settings.codeSeconds);
    (if IsOn(short) then [short] else []) + (if code && IsOn(long) then [long] else [])
  }

  // --------------------------------------------------------- the operations

  /** The row one more failure leaves, opening a window when none is running. */
  function Counted(rows: Rows, key: Key, seconds: nat, now: nat): Row {
    if key in rows && rows[key].until > now then Row(rows[key].count + 1, rows[key].until)
    else Row(1, now + Ticks(seconds))
  }

  /** What counting a failure leaves, and how many notices it mails. */
  datatype Tally = Tally(rows: Rows, notices: nat)

  function CountLimit(rows: Rows, limit: Limit, subject: Subject, hasAccount: bool, now: nat): Tally
    requires IsOn(limit)
  {
    var key := Key(limit.name, subject);
    var row := Counted(rows, key, limit.seconds, now);
    var counted := rows[key := row];
    if row.count == limit.attempts && hasAccount then
      var mark := Counted(counted, Key(NoticeMark, subject), NOTICE_SECONDS, now);
      Tally(counted[Key(NoticeMark, subject) := mark], if mark.count == 1 then 1 else 0)
    else Tally(counted, 0)
  }

  function CountLimits(rows: Rows, limits: seq<Limit>, subject: Subject, hasAccount: bool, now: nat): Tally
    requires forall l :: l in limits ==> IsOn(l)
  {
    if limits == [] then Tally(rows, 0)
    else
      var before := CountLimits(rows, limits[..|limits| - 1], subject, hasAccount, now);
      var last := CountLimit(before.rows, limits[|limits| - 1], subject, hasAccount, now);
      Tally(last.rows, before.notices + last.notices)
  }

  /** The rows without those whose windows ended more than a day ago. */
  function Swept(rows: Rows, now: nat): Rows {
    map k | k in rows && !(rows[k].until + DAY < now) :: rows[k]
  }

  function RecordFailure(settings: Settings, rows: Rows, subject: Subject, hasAccount: bool, code: bool, now: nat): Tally {
    var tally := CountLimits(rows, Limits(settings, code), subject, hasAccount, now);
    Tally(Swept(tally.rows, now), tally.notices)
  }

  predicate LockedBy(rows: Rows, limit: Limit, subject: Subject, now: nat) {
    var key := Key(limit.name, subject);
    key in rows && rows[key].until > now && rows[key].count >= limit.attempts
  }

  /** Whole seconds until the window of `limit` has passed, at least one. */
  function WaitFor(rows: Rows, limit: Limit, subject: Subject, now: nat): nat
    requires LockedBy(rows, limit, subject, now)
  {
    SecondsIn(rows[Key(limit.name, subject)].until - now)
  }

  function Longer(a: Option<nat>, b: Option<nat>): Option<nat> {
    if a.None? then b else if b.None? then a else if a.value < b.value then b else a
  }

  function LongestWait(rows: Rows, limits: seq<Limit>, subject: Subject, now: nat): Option<nat> {
    if limits == [] then None
    else
      var limit := limits[|limits| - 1];
      Longer(LongestWait(rows, limits[..|limits| - 1], subject, now),
             if LockedBy(rows, limit, subject, now) then Some(WaitFor(rows, limit, subject, now)) else None)
  }

  /** Seconds until `subject` may be tried again, or None when it may be now. */
  function LockoutWait(settings: Settings, rows: Rows, subject: Subject, now: nat): Option<nat> {
    LongestWait(rows, Limits(settings, true), subject, now)
  }

  function ClearFailures(rows: Rows, subject: Subject): Rows {
    rows - {Key(Failures, subject)}
  }

  function ClearAllFailures(rows: Rows, subject: Subject): Rows {
    rows - {Key(Failures, subject), Key(CodeFailures, subject)}
  }

  // ------------------------------------------------------------------- runs

  /** What may happen: a failing attempt, which the gate may refuse, a clearing, or a question. */
  datatype Op =
    | Fail(subject: Subject, hasAccount: bool, code: bool)
    | Clear(subject: Subject)
    | ClearAll(subject: Subject)
    | Ask(subject: Subject)

  datatype Event = Event(wait: nat, op: Op)

  /** What an operation answers: the wait the gate gave, and the notices it mailed. */
  datatype Answer = Answer(wait: Option<nat>, notices: nat)

  function Do(settings: Settings, rows: Rows, op: Op, now: nat): (Rows, Answer) {
    match op
    case Fail(subject, hasAccount, code) =>
      var wait := LockoutWait(settings, rows, subject, now);
      if wait.Some? then (rows, Answer(wait, 0))
      else
        var tally := RecordFailure(settings, rows, subject, hasAccount, code, now);
        (tally.rows, Answer(None, tally.notices))
    case Clear(subject) => (ClearFailures(rows, subject), Answer(None, 0))
    case ClearAll(subject) => (ClearAllFailures(rows, subject), Answer(None, 0))
    case Ask(subject) => (rows, Answer(LockoutWait(settings, rows, subject, now), 0))
  }

  /** The answers of a run, in order. */
  function Answers(settings: Settings, rows: Rows, events: seq<Event>, now: nat): seq<Answer>
    decreases |events|
  {
    if events == [] then []
    else
      var at := now + events[0].wait;
      var step := Do(settings, rows, events[0].op, at);
      [step.1] + Answers(settings, step.0, events[1..], at)
  }

  function EndTime(events: seq<Event>, now: nat): nat
    decreases |events|
  {
    if events == [] then now else EndTime(events[1..], now + events[0].wait)
  }

  // ------------------------------------------------- one key at a time

  /** The running row under `key`, or None when it reads as empty. */
  function Running(rows: Rows, key: Key, now: nat): Option<Row> {
    if key in rows && rows[key].until > now then Some(rows[key]) else None
  }

  lemma SweepKeepsRunning(rows: Rows, key: Key, now: nat)
    ensures Running(Swept(rows, now), key, now) == Running(rows, key, now)
  {
  }

  /** True when a failure goes into the count `name`, which is on. */
  predicate CountsInto(settings: Settings, code: bool, name: CountName) {
    match name
    case Failures => settings.attempts > 0 && settings.seconds > 0
    case CodeFailures => code && settings.codeAttempts > 0 && settings.codeSeconds > 0
    case NoticeMark => false
  }

  function SecondsOf(settings: Settings, name: CountName): int {
    if name == Failures then settings.seconds else settings.codeSeconds
  }

  function AttemptsOf(settings: Settings, name: CountName): int {
    if name == Failures then settings.attempts else settings.codeAttempts
  }

  /** What recording a failure does to each running count. */
  lemma RecordFailureCounts(settings: Settings, rows: Rows, subject: Subject, hasAccount: bool, code: bool, now: nat, key: Key)
    requires key.name != NoticeMark
    ensures
      var after := RecordFailure(settings, rows, subject, hasAccount, code, now).rows;
      Running(after, key, now) ==
        if key.subject == subject && CountsInto(settings, code, key.name)
        then Some(Counted(rows, key, SecondsOf(settings, key.name), now))
        else Running(rows, key, now)
  {
    var limits := Limits(settings, code);
    SweepKeepsRunning(CountLimits(rows, limits, subject, hasAccount, now).rows, key, now);
    var limit := Limit(key.name, AttemptsOf(settings, key.name), SecondsOf(settings, key.name));
    LimitsAre(settings, code, limit);
    if key.subject == subject && CountsInto(settings, code, key.name) {
      LimitIsCounted(rows, limits, limit, subject, hasAccount, now);
    } else {
      OthersAreNotCounted(rows, limits, subject, hasAccount, now, key, 0);
    }
  }

  /** The counts a failure goes into, each once. */
  lemma LimitsAre(settings: Settings, code: bool, limit: Limit)
    requires limit == Limit(limit.name, AttemptsOf(settings, limit.name), SecondsOf(settings, limit.name))
    ensures var limits := Limits(settings, code);
      && (CountsInto(settings, code, limit.name) ==> limit in limits)
      && (!CountsInto(settings, code, limit.name) ==> NoneIs(limits, limit.name))
      && NamedApart(limits)
  {
  }

  /** None of `limits` is the one of the count `name`. */
  predicate NoneIs(limits: seq<Limit>, name: CountName) {
    forall l :: l in limits ==> l.name != name
  }

  /** No two of `limits` are of one count. */
  predicate NamedApart(limits: seq<Limit>) {
    limits == [] || (NoneIs(limits[..|limits| - 1], limits[|limits| - 1].name) && NamedApart(limits[..|limits| - 1]))
  }

  /** Counting into the others leaves a count as it was, whatever its window. */
  lemma {:induction false} OthersAreNotCounted(
      rows: Rows, limits: seq<Limit>, subject: Subject, hasAccount: bool, now: nat, key: Key, seconds: nat)
    requires key.name != NoticeMark && (forall l :: l in limits ==> IsOn(l))
    requires key.subject == subject ==> NoneIs(limits, key.name)
    ensures var after := CountLimits(rows, limits, subject, hasAccount, now).rows;
      && Running(after, key, now) == Running(rows, key, now)
      && Counted(after, key, seconds, now) == Counted(rows, key, seconds, now)
  {
    if limits != [] {
      var n := |limits| - 1;
      OthersAreNotCounted(rows, limits[..n], subject, hasAccount, now, key, seconds);
      var before := CountLimits(rows, limits[..n], subject, hasAccount, now).rows;
      CountLimitCounts(before, limits[n], subject, hasAccount, now, key, seconds);
    }
  }

  /** Counting into limits of different names adds one to each of their counts. */
  lemma {:induction false} LimitIsCounted(
      rows: Rows, limits: seq<Limit>, limit: Limit, subject: Subject, hasAccount: bool, now: nat)
    requires limit in limits && limit.name != NoticeMark && (forall l :: l in limits ==> IsOn(l))
    requires NamedApart(limits)
    ensures var key := Key(limit.name, subject);
      Running(CountLimits(rows, limits, subject, hasAccount, now).rows, key, now)
        == Some(Counted(rows, key, limit.seconds, now))
  {
    var n, key := |limits| - 1, Key(limit.name, subject);
    var before := CountLimits(rows, limits[..n], subject, hasAccount, now).rows;
    CountLimitCounts(before, limits[n], subject, hasAccount, now, key, limit.seconds);
    if limits[n] == limit {
      OthersAreNotCounted(rows, limits[..n], subject, hasAccount, now, key, limit.seconds);
    } else {
      assert limit in limits[..n];
      LimitIsCounted(rows, limits[..n], limit, subject, hasAccount, now);
    }
  }

  lemma CountLimitCounts(
      rows: Rows, limit: Limit, subject: Subject, hasAccount: bool, now: nat, key: Key, seconds: nat)
    requires IsOn(limit) && key.name != NoticeMark
    ensures
      var after := CountLimit(rows, limit, subject, hasAccount, now).rows;
      && Running(after, key, now) ==
          (if key == Key(limit.name, subject) then Some(Counted(rows, key, limit.seconds, now)) else Running(rows, key, now))
      && (key != Key(limit.name, subject) ==> Counted(after, key, seconds, now) == Counted(rows, key, seconds, now))
  {
  }

  // ------------------------------------------------------ the counting bound

  /** How many windows of `seconds` can open in [`from`, `end`], one after the other. */
  function Windows(from: nat, end: nat, seconds: nat): nat
    requires seconds > 0
    decreases end + 1 - from
  {
    if from > end then 0 else 1 + Windows(from + Ticks(seconds), end, seconds)
  }

  lemma {:induction false} LaterFewerWindows(early: nat, late: nat, end: nat, seconds: nat)
    requires seconds > 0 && early <= late
    ensures Windows(late, end, seconds) <= Windows(early, end, seconds)
    decreases end + 1 - early
  {
    if late <= end {
      LaterFewerWindows(early + Ticks(seconds), late + Ticks(seconds), end, seconds);
    }
  }

  lemma {:induction false} WindowsInSpan(from: nat, end: nat, seconds: nat, window: nat, fits: nat)
    requires seconds > 0 && window == Ticks(seconds) && end < from + (fits + 1) * window
    ensures Windows(from, end, seconds) <= fits + 1
    decreases fits
  {
    assert (fits + 1) * window == fits * window + window;
    if from <= end && fits > 0 {
      WindowsInSpan(from + window, end, seconds, window, fits - 1);
    }
  }

  /** `attempts`, `times` times over. */
  function Repeated(attempts: nat, times: nat): nat {
    if times == 0 then 0 else attempts + Repeated(attempts, times - 1)
  }

  lemma {:induction false} RepeatedGrows(attempts: nat, few: nat, many: nat)
    requires few <= many
    ensures Repeated(attempts, few) <= Repeated(attempts, many)
  {
    if few < many {
      RepeatedGrows(attempts, few, many - 1);
    }
  }

  lemma {:induction false} RepeatedIsTimes(attempts: nat, times: nat)
    ensures Repeated(attempts, times) == attempts * times
  {
    if times > 0 {
      RepeatedIsTimes(attempts, times - 1);
      assert attempts * times == attempts * (times - 1) + attempts;
    }
  }

  /** How many more failures of a count `row` can be admitted from `now` to `end`. */
  function Budget(row: Option<Row>, attempts: nat, seconds: nat, now: nat, end: nat): nat
    requires seconds > 0
  {
    match row
    case None => Repeated(attempts, Windows(now, end, seconds))
    case Some(r) =>
      (if r.count < attempts then attempts - r.count else 0) + Repeated(attempts, Windows(r.until, end, seconds))
  }

  /** The failures of `key` the gate lets through in a run. */
  function Admitted(settings: Settings, rows: Rows, events: seq<Event>, now: nat, key: Key): nat
    decreases |events|
  {
    if events == [] then 0
    else
      var at := now + events[0].wait;
      var op := events[0].op;
      var step := Do(settings, rows, op, at);
      var admitted := op.Fail? && op.subject == key.subject && (key.name == Failures || op.code) && step.1.wait.None?;
      (if admitted then 1 else 0) + Admitted(settings, step.0, events[1..], at, key)
  }

  /** No event of the run forgets the count `key`. */
  predicate Unforgotten(events: seq<Event>, key: Key) {
    forall e :: e in events && (e.op.ClearAll? || (e.op.Clear? && key.name == Failures)) ==> e.op.subject != key.subject
  }

  lemma GateHolds(settings: Settings, rows: Rows, key: Key, now: nat)
    requires CountsInto(settings, true, key.name)
    requires LockoutWait(settings, rows, key.subject, now).None?
    ensures var row := Running(rows, key, now);
            row.Some? ==> row.value.count < AttemptsOf(settings, key.name)
  {
    LockoutWaitUnrolled(settings, rows, key.subject, now);
  }

  /** The wait one limit asks for. */
  function WaitOf(rows: Rows, limit: Limit, subject: Subject, now: nat): Option<nat> {
    if IsOn(limit) && LockedBy(rows, limit, subject, now) then Some(WaitFor(rows, limit, subject, now)) else None
  }

  lemma LockoutWaitUnrolled(settings: Settings, rows: Rows, subject: Subject, now: nat)
    ensures LockoutWait(settings, rows, subject, now)
         == Longer(WaitOf(rows, Limit(Failures, settings.attempts, settings.seconds), subject, now),
                   WaitOf(rows, Limit(CodeFailures, settings.codeAttempts, settings.codeSeconds), subject, now))
  {
    var short := Limit(Failures, settings.attempts, settings.seconds);
    var long := Limit(CodeFailures, settings.codeAttempts, settings.codeSeconds);
    var limits := Limits(settings, true);
    LongestWaitUnrolled(rows, limits, subject, now);
    if IsOn(short) && IsOn(long) {
      assert limits == [short, long];
    } else if IsOn(short) {
      assert limits == [short];
    } else if IsOn(long) {
      assert limits == [long];
    } else {
      assert limits == [];
    }
  }

  /** Where the same window is running the wait is the same. */
  lemma SameRunningSameWait(a: Rows, b: Rows, limit: Limit, subject: Subject, now: nat)
    requires Running(a, Key(limit.name, subject), now) == Running(b, Key(limit.name, subject), now)
    ensures WaitOf(a, limit, subject, now) == WaitOf(b, limit, subject, now)
  {
    var key := Key(limit.name, subject);
    if LockedBy(a, limit, subject, now) {
      assert a[key] == b[key] && LockedBy(b, limit, subject, now);
    }
  }

  lemma NothingRunningNoWait(rows: Rows, limit: Limit, subject: Subject, now: nat)
    requires Running(rows, Key(limit.name, subject), now).None?
    ensures WaitOf(rows, limit, subject, now).None?
  {
  }

  /** Two tables with the same windows running for a subject make it wait the same. */
  lemma SameWindowsSameWait(settings: Settings, a: Rows, b: Rows, subject: Subject, now: nat)
    requires Running(a, Key(Failures, subject), now) == Running(b, Key(Failures, subject), now)
    requires Running(a, Key(CodeFailures, subject), now) == Running(b, Key(CodeFailures, subject), now)
    ensures LockoutWait(settings, a, subject, now) == LockoutWait(settings, b, subject, now)
  {
    LockoutWaitUnrolled(settings, a, subject, now);
    LockoutWaitUnrolled(settings, b, subject, now);
    SameRunningSameWait(a, b, Limit(Failures, settings.attempts, settings.seconds), subject, now);
    SameRunningSameWait(a, b, Limit(CodeFailures, settings.codeAttempts, settings.codeSeconds), subject, now);
  }

  lemma LongestWaitUnrolled(rows: Rows, limits: seq<Limit>, subject: Subject, now: nat)
    requires |limits| <= 2 && forall l :: l in limits ==> IsOn(l)
    ensures |limits| == 0 ==> LongestWait(rows, limits, subject, now) == None
    ensures |limits| == 1 ==> LongestWait(rows, limits, subject, now) == WaitOf(rows, limits[0], subject, now)
    ensures |limits| == 2 ==>
      LongestWait(rows, limits, subject, now)
        == Longer(WaitOf(rows, limits[0], subject, now), WaitOf(rows, limits[1], subject, now))
  {
    if |limits| > 0 {
      LongestWaitUnrolled(rows, limits[..|limits| - 1], subject, now);
    }
  }

  lemma BudgetSpent(row: Option<Row>, attempts: nat, seconds: nat, now: nat, end: nat, next: Row)
    requires seconds > 0 && attempts > 0 && now <= end
    requires row.Some? ==> now < row.value.until && row.value.count < attempts && next == Row(row.value.count + 1, row.value.until)
    requires row.None? ==> next == Row(1, now + Ticks(seconds))
    ensures 1 + Budget(Some(next), attempts, seconds, now, end) <= Budget(row, attempts, seconds, now, end)
  {
  }

  lemma BudgetOnlyFalls(rows: Rows, key: Key, attempts: nat, seconds: nat, now: nat, later: nat, end: nat)
    requires seconds > 0 && now <= later
    ensures Budget(Running(rows, key, later), attempts, seconds, later, end)
         <= Budget(Running(rows, key, now), attempts, seconds, now, end)
  {
    var row := Running(rows, key, now);
    var from := if row.Some? then row.value.until else now;
    if Running(rows, key, later).None? {
      LaterFewerWindows(from, later, end, seconds);
      RepeatedGrows(attempts, Windows(later, end, seconds), Windows(from, end, seconds));
    }
  }

  lemma StepSpendsBudget(settings: Settings, rows: Rows, op: Op, now: nat, end: nat, key: Key)
    requires key.name != NoticeMark && CountsInto(settings, true, key.name) && now <= end
    requires Unforgotten([Event(0, op)], key)
    ensures
      var attempts := AttemptsOf(settings, key.name);
      var seconds := SecondsOf(settings, key.name);
      var step := Do(settings, rows, op, now);
      var admitted := op.Fail? && op.subject == key.subject && (key.name == Failures || op.code) && step.1.wait.None?;
      (if admitted then 1 else 0) + Budget(Running(step.0, key, now), attempts, seconds, now, end)
        <= Budget(Running(rows, key, now), attempts, seconds, now, end)
  {
    if op.Fail? && LockoutWait(settings, rows, op.subject, now).None? {
      FailureSpendsBudget(settings, rows, op.subject, op.hasAccount, op.code, now, end, key);
    } else {
      assert Event(0, op) in [Event(0, op)];
      OtherwiseNothingCounts(settings, rows, op, now, key);
    }
  }

  /** A failure the gate lets through spends the budget of each count it goes into. */
  lemma FailureSpendsBudget(
      settings: Settings, rows: Rows, subject: Subject, hasAccount: bool, code: bool, now: nat, end: nat, key: Key)
    requires key.name != NoticeMark && CountsInto(settings, true, key.name) && now <= end
    requires LockoutWait(settings, rows, subject, now).None?
    ensures
      var attempts := AttemptsOf(settings, key.name);
      var seconds := SecondsOf(settings, key.name);
      var after := RecordFailure(settings, rows, subject, hasAccount, code, now).rows;
      var admitted := subject == key.subject && (key.name == Failures || code);
      (if admitted then 1 else 0) + Budget(Running(after, key, now), attempts, seconds, now, end)
        <= Budget(Running(rows, key, now), attempts, seconds, now, end)
  {
    RecordFailureCounts(settings, rows, subject, hasAccount, code, now, key);
    if subject == key.subject && CountsInto(settings, code, key.name) {
      GateHolds(settings, rows, key, now);
      var seconds := SecondsOf(settings, key.name);
      BudgetSpent(Running(rows, key, now), AttemptsOf(settings, key.name), seconds, now, end,
                  Counted(rows, key, seconds, now));
    }
  }

  /** A refused attempt, a question, and a clearing of other counts leave a count as it was. */
  lemma OtherwiseNothingCounts(settings: Settings, rows: Rows, op: Op, now: nat, key: Key)
    requires op.Fail? ==> LockoutWait(settings, rows, op.subject, now).Some?
    requires op.ClearAll? || (op.Clear? && key.name == Failures) ==> op.subject != key.subject
    ensures Running(Do(settings, rows, op, now).0, key, now) == Running(rows, key, now)
    ensures op.Fail? ==> Do(settings, rows, op, now).1.wait.Some?
  {
  }

  lemma {:induction false} RunWithinBudget(settings: Settings, rows: Rows, events: seq<Event>, now: nat, end: nat, key: Key)
    requires key.name != NoticeMark && CountsInto(settings, true, key.name)
    requires EndTime(events, now) <= end && Unforgotten(events, key)
    ensures Admitted(settings, rows, events, now, key)
         <= Budget(Running(rows, key, now), AttemptsOf(settings, key.name), SecondsOf(settings, key.name), now, end)
    decreases |events|
  {
    if events != [] {
      var attempts, seconds := AttemptsOf(settings, key.name), SecondsOf(settings, key.name);
      var at := now + events[0].wait;
      EndTimeIsLater(events[1..], at);
      BudgetOnlyFalls(rows, key, attempts, seconds, now, at, end);
      assert events[0] in events;
      StepSpendsBudget(settings, rows, events[0].op, at, end, key);
      RunWithinBudget(settings, Do(settings, rows, events[0].op, at).0, events[1..], at, end, key);
    }
  }

  lemma {:induction false} EndTimeIsLater(events: seq<Event>, now: nat)
    ensures now <= EndTime(events, now)
    decreases |events|
  {
    if events != [] {
      EndTimeIsLater(events[1..], now + events[0].wait);
    }
  }

  lemma SpanFits(span: nat, window: nat, fits: nat)
    requires window > 0 && fits == span / window
    ensures span < (fits + 1) * window
  {
    assert span == window * fits + span % window;
  }

  /** In a span shorter than `fits` windows and one more, the gate admits at most `attempts`, `fits` and two times over. */
  lemma AdmittedWithin(
      settings: Settings, rows: Rows, events: seq<Event>, now: nat, span: nat, key: Key, window: nat, fits: nat)
    requires key.name != NoticeMark && CountsInto(settings, true, key.name)
    requires EndTime(events, now) <= now + span && Unforgotten(events, key)
    requires window == Ticks(SecondsOf(settings, key.name)) && span < (fits + 1) * window
    ensures Admitted(settings, rows, events, now, key) <= Repeated(AttemptsOf(settings, key.name), fits + 2)
  {
    var attempts, seconds := AttemptsOf(settings, key.name), SecondsOf(settings, key.name);
    RunWithinBudget(settings, rows, events, now, now + span, key);
    var row := Running(rows, key, now);
    var from := if row.Some? then row.value.until else now;
    WindowsInSpan(from, now + span, seconds, window, fits);
    RepeatedGrows(attempts, Windows(from, now + span, seconds), fits + 1);
    assert Repeated(attempts, fits + 2) == attempts + Repeated(attempts, fits + 1);
  }

  /**
   In any span of `span` ticks, into which `fits` whole windows fit, the gate admits at most
   `attempts * (fits + 2)` failures of one subject, whatever else happens short of forgetting the count.
   */
  lemma AdmittedInAnySpan(
      settings: Settings, rows: Rows, events: seq<Event>, now: nat, span: nat, key: Key, window: nat, fits: nat)
    requires key.name != NoticeMark && CountsInto(settings, true, key.name)
    requires EndTime(events, now) <= now + span && Unforgotten(events, key)
    requires window == Ticks(SecondsOf(settings, key.name)) && fits == span / window
    ensures Admitted(settings, rows, events, now, key) <= AttemptsOf(settings, key.name) * (fits + 2)
  {
    SpanFits(span, window, fits);
    AdmittedWithin(settings, rows, events, now, span, key, window, fits);
    RepeatedIsTimes(AttemptsOf(settings, key.name), fits + 2);
  }

  /** Wrong codes are bounded however often the short count is cleared in between. */
  lemma WrongCodesInAnySpan(
      settings: Settings, rows: Rows, events: seq<Event>, now: nat, span: nat, subject: Subject, window: nat, fits: nat)
    requires settings.codeAttempts > 0 && settings.codeSeconds > 0
    requires window == Ticks(settings.codeSeconds) && fits == span / window
    requires EndTime(events, now) <= now + span
    requires forall e :: e in events && e.op.ClearAll? ==> e.op.subject != subject
    ensures Admitted(settings, rows, events, now, Key(CodeFailures, subject)) <= settings.codeAttempts * (fits + 2)
  {
    AdmittedInAnySpan(settings, rows, events, now, span, Key(CodeFailures, subject), window, fits);
  }

  // ---------------------------------------------------- a refusal is earned

  /** The count under `key` has not reached `attempts`. */
  predicate Below(rows: Rows, key: Key, attempts: int, now: nat) {
    var row := Running(rows, key, now);
    row.Some? ==> row.value.count < attempts
  }

  /** The gate lets an attempt through exactly while every count that is on is below its limit. */
  lemma GateOpensIff(settings: Settings, rows: Rows, subject: Subject, now: nat)
    ensures LockoutWait(settings, rows, subject, now).None? <==>
      forall name :: CountsInto(settings, true, name) ==>
        Below(rows, Key(name, subject), AttemptsOf(settings, name), now)
  {
    LockoutWaitUnrolled(settings, rows, subject, now);
    var open := forall name :: CountsInto(settings, true, name) ==> Below(rows, Key(name, subject), AttemptsOf(settings, name), now);
    if open {
      assert CountsInto(settings, true, Failures) ==> Below(rows, Key(Failures, subject), settings.attempts, now);
      assert CountsInto(settings, true, CodeFailures) ==> Below(rows, Key(CodeFailures, subject), settings.codeAttempts, now);
    }
  }

  /** The rows a run leaves. */
  function RowsAfter(settings: Settings, rows: Rows, events: seq<Event>, now: nat): Rows
    decreases |events|
  {
    if events == [] then rows
    else
      var at := now + events[0].wait;
      RowsAfter(settings, Do(settings, rows, events[0].op, at).0, events[1..], at)
  }

  /** The failure an operation adds to the count `key`, if it does: its time. */
  function CountedAt(settings: Settings, rows: Rows, op: Op, at: nat, key: Key): seq<nat> {
    if op.Fail? && op.subject == key.subject && (key.name == Failures || op.code)
       && LockoutWait(settings, rows, op.subject, at).None?
    then [at] else []
  }

  /** When the run's failures of the count `key` were let through. */
  function FailureTimes(settings: Settings, rows: Rows, events: seq<Event>, now: nat, key: Key): seq<nat>
    decreases |events|
  {
    if events == [] then []
    else
      var at := now + events[0].wait;
      var op := events[0].op;
      CountedAt(settings, rows, op, at, key) + FailureTimes(settings, Do(settings, rows, op, at).0, events[1..], at, key)
  }

  /** How many of `times` are no earlier than `from`. */
  function Since(times: seq<nat>, from: int): nat {
    if times == [] then 0 else Since(times[..|times| - 1], from) + if times[|times| - 1] >= from then 1 else 0
  }

  lemma SinceOneMore(times: seq<nat>, t: nat, from: int)
    ensures Since(times + [t], from) == Since(times, from) + if t >= from then 1 else 0
  {
    assert (times + [t])[..|times|] == times;
  }

  lemma {:induction false} SinceEarlier(times: seq<nat>, early: int, late: int)
    requires early <= late
    ensures Since(times, late) <= Since(times, early)
  {
    if times != [] {
      SinceEarlier(times[..|times| - 1], early, late);
    }
  }

  /** A running count stands for failures let through since its window opened. */
  predicate Backed(row: Option<Row>, times: seq<nat>, seconds: int, now: nat) {
    row.Some? ==>
      row.value.count <= Since(times, row.value.until - Ticks(seconds)) && row.value.until <= now + Ticks(seconds)
  }

  lemma CountedIsBacked(rows: Rows, key: Key, times: seq<nat>, seconds: nat, at: nat)
    requires seconds > 0 && Backed(Running(rows, key, at), times, seconds, at)
    ensures Backed(Some(Counted(rows, key, seconds, at)), times + [at], seconds, at)
  {
    SinceOneMore(times, at, Counted(rows, key, seconds, at).until - Ticks(seconds));
  }

  lemma StepIsBacked(settings: Settings, rows: Rows, op: Op, at: nat, key: Key, times: seq<nat>)
    requires key.name != NoticeMark && CountsInto(settings, true, key.name)
    requires Backed(Running(rows, key, at), times, SecondsOf(settings, key.name), at)
    ensures Backed(Running(Do(settings, rows, op, at).0, key, at), times + CountedAt(settings, rows, op, at, key),
                   SecondsOf(settings, key.name), at)
  {
    var seconds := SecondsOf(settings, key.name);
    assert times + [] == times;
    if op.Fail? && LockoutWait(settings, rows, op.subject, at).None? {
      RecordFailureCounts(settings, rows, op.subject, op.hasAccount, op.code, at, key);
      if op.subject == key.subject && CountsInto(settings, op.code, key.name) {
        CountedIsBacked(rows, key, times, seconds, at);
      }
    } else if !((op.ClearAll? || (op.Clear? && key.name == Failures)) && op.subject == key.subject) {
      OtherwiseNothingCounts(settings, rows, op, at, key);
    }
  }

  lemma LaterIsBacked(rows: Rows, key: Key, times: seq<nat>, seconds: int, now: nat, later: nat)
    requires Backed(Running(rows, key, now), times, seconds, now) && now <= later
    ensures Backed(Running(rows, key, later), times, seconds, later)
  {
  }

  lemma InOneRow(a: seq<nat>, b: seq<nat>, c: seq<nat>)
    ensures a + b + c == a + (b + c)
  {
  }

  lemma {:induction false} RunIsBacked(
      settings: Settings, rows: Rows, events: seq<Event>, now: nat, key: Key, times: seq<nat>)
    requires key.name != NoticeMark && CountsInto(settings, true, key.name)
    requires Backed(Running(rows, key, now), times, SecondsOf(settings, key.name), now)
    ensures Backed(Running(RowsAfter(settings, rows, events, now), key, EndTime(events, now)),
                   times + FailureTimes(settings, rows, events, now, key), SecondsOf(settings, key.name), EndTime(events, now))
    decreases |events|
  {
    if events == [] {
      assert times + [] == times;
    } else {
      var at, op := now + events[0].wait, events[0].op;
      var counted, next := CountedAt(settings, rows, op, at, key), Do(settings, rows, op, at).0;
      LaterIsBacked(rows, key, times, SecondsOf(settings, key.name), now, at);
      StepIsBacked(settings, rows, op, at, key, times);
      RunIsBacked(settings, next, events[1..], at, key, times + counted);
      InOneRow(times, counted, FailureTimes(settings, next, events[1..], at, key));
    }
  }

  /** How many failures of the count `key` were let through within the last window of the run. */
  function RecentFailures(settings: Settings, events: seq<Event>, start: nat, key: Key): nat {
    Since(FailureTimes(settings, map[], events, start, key),
          EndTime(events, start) - Ticks(SecondsOf(settings, key.name)) + 1)
  }

  lemma RunningIsRecent(settings: Settings, events: seq<Event>, start: nat, key: Key, row: Option<Row>)
    requires key.name != NoticeMark && CountsInto(settings, true, key.name)
    requires row == Running(RowsAfter(settings, map[], events, start), key, EndTime(events, start))
    ensures row.Some? ==> row.value.count <= RecentFailures(settings, events, start, key)
  {
    var times := FailureTimes(settings, map[], events, start, key);
    RunIsBacked(settings, map[], events, start, key, []);
    assert [] + times == times;
    if row.Some? {
      var since := row.value.until - Ticks(SecondsOf(settings, key.name));
      SinceEarlier(times, EndTime(events, start) - Ticks(SecondsOf(settings, key.name)) + 1, since);
    }
  }

  /**
   Nobody is refused without having failed: over every run from an empty table, the gate is shut to a subject only
   when, of some count that is on, its whole limit of failures was let through within the last window.
   */
  lemma RefusalIsEarned(settings: Settings, events: seq<Event>, start: nat, subject: Subject) returns (name: CountName)
    requires LockoutWait(settings, RowsAfter(settings, map[], events, start), subject, EndTime(events, start)).Some?
    ensures CountsInto(settings, true, name)
    ensures AttemptsOf(settings, name) <= RecentFailures(settings, events, start, Key(name, subject))
  {
    var rows, end := RowsAfter(settings, map[], events, start), EndTime(events, start);
    GateOpensIff(settings, rows, subject, end);
    name :| CountsInto(settings, true, name) && !Below(rows, Key(name, subject), AttemptsOf(settings, name), end);
    RunningIsRecent(settings, events, start, Key(name, subject), Running(rows, Key(name, subject), end));
  }

  // --------------------------------------------------------------- the wait

  /** The wait reported is enough, and no shorter whole number of seconds is. */
  lemma WaitIsExact(settings: Settings, rows: Rows, subject: Subject, now: nat, later: nat)
    requires LockoutWait(settings, rows, subject, now).Some? && now <= later
    ensures
      var wait := LockoutWait(settings, rows, subject, now).value;
      && wait >= 1
      && (now + Ticks(wait) <= later ==> LockoutWait(settings, rows, subject, later).None?)
      && (later <= now + Ticks(wait - 1) ==> LockoutWait(settings, rows, subject, later).Some?)
  {
    LockoutWaitUnrolled(settings, rows, subject, now);
    LockoutWaitUnrolled(settings, rows, subject, later);
  }

  // ------------------------------------------------------ notices, a day apart

  /** When the account counted as `subject` is mailed a lockout notice. */
  function NoticeTimes(settings: Settings, rows: Rows, events: seq<Event>, now: nat, subject: Subject): seq<nat>
    decreases |events|
  {
    if events == [] then []
    else
      var at := now + events[0].wait;
      var op := events[0].op;
      var step := Do(settings, rows, op, at);
      NoticeAt(op, step.1, at, subject) + NoticeTimes(settings, step.0, events[1..], at, subject)
  }

  /** When one operation mails the account counted as `subject`, if it does. */
  function NoticeAt(op: Op, answer: Answer, at: nat, subject: Subject): seq<nat> {
    if op.Fail? && op.subject == subject && answer.notices > 0 then [at] else []
  }

  /** None of `times` is before `from`. */
  predicate NoneBefore(times: seq<nat>, from: nat) {
    forall i :: 0 <= i < |times| ==> from <= times[i]
  }

  /** A notice has been mailed, and none other may be before `until`. */
  predicate Marked(rows: Rows, subject: Subject, until: nat, now: nat) {
    var mark := Running(rows, Key(NoticeMark, subject), now);
    mark.Some? && mark.value.until == until && mark.value.count >= 1
  }

  /** Every stored count has counted something. */
  predicate Sound(rows: Rows) {
    forall k :: k in rows ==> rows[k].count >= 1
  }

  lemma CountLimitMarks(rows: Rows, limit: Limit, subject: Subject, hasAccount: bool, now: nat, other: Subject, until: nat)
    requires Sound(rows) && IsOn(limit) && limit.name != NoticeMark
    ensures
      var tally := CountLimit(rows, limit, subject, hasAccount, now);
      && Sound(tally.rows) && tally.notices <= 1
      && (tally.notices == 1 ==> Marked(tally.rows, subject, now + Ticks(NOTICE_SECONDS), now))
      && (Marked(rows, other, until, now) ==> Marked(tally.rows, other, until, now))
      && (Marked(rows, subject, until, now) ==> tally.notices == 0)
  {
  }

  lemma {:induction false} CountLimitsMark(
      rows: Rows, limits: seq<Limit>, subject: Subject, hasAccount: bool, now: nat, other: Subject, until: nat)
    requires Sound(rows) && forall l :: l in limits ==> IsOn(l) && l.name != NoticeMark
    ensures
      var tally := CountLimits(rows, limits, subject, hasAccount, now);
      && Sound(tally.rows) && tally.notices <= 1
      && (tally.notices == 1 ==> Marked(tally.rows, subject, now + Ticks(NOTICE_SECONDS), now))
      && (Marked(rows, other, until, now) ==> Marked(tally.rows, other, until, now))
      && (Marked(rows, subject, until, now) ==> tally.notices == 0)
  {
    if limits != [] {
      var n, mark := |limits| - 1, now + Ticks(NOTICE_SECONDS);
      CountLimitsMark(rows, limits[..n], subject, hasAccount, now, other, until);
      CountLimitsMark(rows, limits[..n], subject, hasAccount, now, subject, until);
      var before := CountLimits(rows, limits[..n], subject, hasAccount, now).rows;
      CountLimitMarks(before, limits[n], subject, hasAccount, now, other, until);
      CountLimitMarks(before, limits[n], subject, hasAccount, now, subject, until);
      CountLimitMarks(before, limits[n], subject, hasAccount, now, subject, mark);
    }
  }

  lemma RecordFailureMarks(settings: Settings, rows: Rows, subject: Subject, hasAccount: bool, code: bool, now: nat,
                           other: Subject, until: nat)
    requires Sound(rows)
    ensures
      var tally := RecordFailure(settings, rows, subject, hasAccount, code, now);
      && Sound(tally.rows) && tally.notices <= 1
      && (tally.notices == 1 ==> Marked(tally.rows, subject, now + Ticks(NOTICE_SECONDS), now))
      && (Marked(rows, other, until, now) ==> Marked(tally.rows, other, until, now))
      && (Marked(rows, subject, until, now) ==> tally.notices == 0)
  {
    var limits := Limits(settings, code);
    CountLimitsMark(rows, limits, subject, hasAccount, now, other, until);
    CountLimitsMark(rows, limits, subject, hasAccount, now, subject, until);
    SweepKeepsRunning(CountLimits(rows, limits, subject, hasAccount, now).rows, Key(NoticeMark, subject), now);
    SweepKeepsRunning(CountLimits(rows, limits, subject, hasAccount, now).rows, Key(NoticeMark, other), now);
  }

  lemma {:induction false} OtherRowsStand(rows: Rows, limits: seq<Limit>, subject: Subject, hasAccount: bool, now: nat, key: Key)
    requires key.subject != subject && forall l :: l in limits ==> IsOn(l)
    ensures
      var after := CountLimits(rows, limits, subject, hasAccount, now).rows;
      (key in after <==> key in rows) && (key in rows ==> after[key] == rows[key])
  {
    if limits != [] {
      OtherRowsStand(rows, limits[..|limits| - 1], subject, hasAccount, now, key);
    }
  }

  /** A failure leaves of everybody else's rows exactly those whose windows have not been over for more than a day. */
  lemma OnlyOldRowsGo(settings: Settings, rows: Rows, subject: Subject, hasAccount: bool, code: bool, now: nat, key: Key)
    requires key.subject != subject
    ensures
      var after := RecordFailure(settings, rows, subject, hasAccount, code, now).rows;
      && (key in after <==> key in rows && now <= rows[key].until + Ticks(86_400))
      && (key in after ==> after[key] == rows[key])
  {
    OtherRowsStand(rows, Limits(settings, code), subject, hasAccount, now, key);
  }

  /** One more failure brings the count of `limit` to it. */
  predicate Reaches(rows: Rows, limit: Limit, subject: Subject, now: nat)
    requires IsOn(limit)
  {
    Counted(rows, Key(limit.name, subject), limit.seconds, now).count == limit.attempts
  }

  lemma CountLimitNotice(rows: Rows, limit: Limit, subject: Subject, hasAccount: bool, now: nat)
    requires Sound(rows) && IsOn(limit) && limit.name != NoticeMark
    ensures
      var tally := CountLimit(rows, limit, subject, hasAccount, now);
      var quiet := Running(rows, Key(NoticeMark, subject), now).None?;
      && tally.notices == (if hasAccount && quiet && Reaches(rows, limit, subject, now) then 1 else 0)
      && (Running(tally.rows, Key(NoticeMark, subject), now).None? <==>
            quiet && !(hasAccount && Reaches(rows, limit, subject, now)))
  {
  }

  lemma {:induction false} CountLimitsNotice(rows: Rows, limits: seq<Limit>, subject: Subject, hasAccount: bool, now: nat)
    requires Sound(rows) && NamedApart(limits) && forall l :: l in limits ==> IsOn(l) && l.name != NoticeMark
    ensures
      var tally := CountLimits(rows, limits, subject, hasAccount, now);
      var quiet := Running(rows, Key(NoticeMark, subject), now).None?;
      var reached := exists l :: l in limits && Reaches(rows, l, subject, now);
      && tally.notices == (if hasAccount && quiet && reached then 1 else 0)
      && (Running(tally.rows, Key(NoticeMark, subject), now).None? <==> quiet && !(hasAccount && reached))
  {
    if limits != [] {
      var n, last := |limits| - 1, limits[|limits| - 1];
      var before := CountLimits(rows, limits[..n], subject, hasAccount, now).rows;
      CountLimitsNotice(rows, limits[..n], subject, hasAccount, now);
      CountLimitsMark(rows, limits[..n], subject, hasAccount, now, subject, 0);
      CountLimitNotice(before, last, subject, hasAccount, now);
      OthersAreNotCounted(rows, limits[..n], subject, hasAccount, now, Key(last.name, subject), last.seconds);
      assert Reaches(before, last, subject, now) == Reaches(rows, last, subject, now);
      assert limits == limits[..n] + [last];
    }
  }

  /**
   A failure mails its account exactly when it brings a count it goes into to the limit of that count, and no notice
   was mailed within the last day.
   */
  lemma NoticeIff(settings: Settings, rows: Rows, subject: Subject, hasAccount: bool, code: bool, now: nat)
    requires Sound(rows)
    ensures RecordFailure(settings, rows, subject, hasAccount, code, now).notices ==
      if hasAccount && Running(rows, Key(NoticeMark, subject), now).None?
         && exists l :: l in Limits(settings, code) && Reaches(rows, l, subject, now)
      then 1 else 0
  {
    LimitsAre(settings, code, Limit(Failures, settings.attempts, settings.seconds));
    CountLimitsNotice(rows, Limits(settings, code), subject, hasAccount, now);
  }

  lemma NoneBeforeLed(lead: seq<nat>, rest: seq<nat>, from: nat)
    requires NoneBefore(lead, from) && NoneBefore(rest, from)
    ensures NoneBefore(lead + rest, from)
  {
  }

  /** What one operation does to the mark of a mailed notice: it stands, and a notice sets it anew. */
  lemma StepMarks(settings: Settings, rows: Rows, op: Op, at: nat, subject: Subject, until: nat)
    requires Sound(rows)
    ensures
      var step := Do(settings, rows, op, at);
      && Sound(step.0)
      && (Marked(rows, subject, until, at) ==>
            Marked(step.0, subject, until, at) && NoticeAt(op, step.1, at, subject) == [])
      && (NoticeAt(op, step.1, at, subject) != [] ==> Marked(step.0, subject, at + Ticks(NOTICE_SECONDS), at))
  {
    if op.Fail? && LockoutWait(settings, rows, op.subject, at).None? {
      RecordFailureMarks(settings, rows, op.subject, op.hasAccount, op.code, at, subject, until);
    }
  }

  lemma MarkStands(rows: Rows, subject: Subject, until: nat, now: nat, at: nat)
    requires Marked(rows, subject, until, now) && now <= at
    ensures at < until ==> Marked(rows, subject, until, at)
  {
  }

  /** The first operation of a run: when it is, what it leaves, and the notice it mails, if it mails one. */
  lemma FirstNotice(settings: Settings, rows: Rows, events: seq<Event>, now: nat, subject: Subject, until: nat)
    returns (at: nat, after: Rows, lead: seq<nat>)
    requires events != []
    ensures now <= at && (lead == [] || lead == [at])
    ensures NoticeTimes(settings, rows, events, now, subject) == lead + NoticeTimes(settings, after, events[1..], at, subject)
    ensures Sound(rows) ==> Sound(after)
    ensures Sound(rows) && Marked(rows, subject, until, now) && at < until ==> Marked(after, subject, until, at) && lead == []
    ensures Sound(rows) && lead != [] ==> Marked(after, subject, at + Ticks(NOTICE_SECONDS), at)
  {
    at := now + events[0].wait;
    var step := Do(settings, rows, events[0].op, at);
    after, lead := step.0, NoticeAt(events[0].op, step.1, at, subject);
    if Sound(rows) {
      StepMarks(settings, rows, events[0].op, at, subject, until);
      if Marked(rows, subject, until, now) {
        MarkStands(rows, subject, until, now, at);
      }
    }
  }

  lemma {:induction false} NoticesAreLater(settings: Settings, rows: Rows, events: seq<Event>, now: nat, subject: Subject)
    ensures NoneBefore(NoticeTimes(settings, rows, events, now, subject), now)
    decreases |events|
  {
    if events != [] {
      var at, after, lead := FirstNotice(settings, rows, events, now, subject, 0);
      NoticesAreLater(settings, after, events[1..], at, subject);
      NoneBeforeLed(lead, NoticeTimes(settings, after, events[1..], at, subject), now);
    }
  }

  lemma {:induction false} QuietWhileMarked(
    settings: Settings, rows: Rows, events: seq<Event>, now: nat, subject: Subject, until: nat)
    requires Sound(rows) && Marked(rows, subject, until, now)
    ensures NoneBefore(NoticeTimes(settings, rows, events, now, subject), until)
    decreases |events|
  {
    if events != [] {
      var at, after, lead := FirstNotice(settings, rows, events, now, subject, until);
      if at < until {
        QuietWhileMarked(settings, after, events[1..], at, subject, until);
      } else {
        NoticesAreLater(settings, after, events[1..], at, subject);
      }
      NoneBeforeLed(lead, NoticeTimes(settings, after, events[1..], at, subject), until);
    }
  }

  /** Each of `times` is a day or more after the ones before it. */
  predicate ADayApart(times: seq<nat>) {
    forall i, j :: 0 <= i < j < |times| ==> times[i] + Ticks(NOTICE_SECONDS) <= times[j]
  }

  lemma LeadADayApart(time: nat, rest: seq<nat>)
    requires ADayApart(rest) && NoneBefore(rest, time + Ticks(NOTICE_SECONDS))
    ensures ADayApart([time] + rest)
  {
    forall i, j | 0 <= i < j < |rest| + 1
      ensures ([time] + rest)[i] + Ticks(NOTICE_SECONDS) <= ([time] + rest)[j]
    {
      assert ([time] + rest)[j] == rest[j - 1];
    }
  }

  /** Over every run, the notices mailed to one account are at least a day apart. */
  lemma {:induction false} NoticesADayApart(settings: Settings, rows: Rows, events: seq<Event>, now: nat, subject: Subject)
    requires Sound(rows)
    ensures ADayApart(NoticeTimes(settings, rows, events, now, subject))
    decreases |events|
  {
    if events != [] {
      var at, after, lead := FirstNotice(settings, rows, events, now, subject, 0);
      var rest := NoticeTimes(settings, after, events[1..], at, subject);
      NoticesADayApart(settings, after, events[1..], at, subject);
      if lead == [] {
        assert lead + rest == rest;
      } else {
        QuietWhileMarked(settings, after, events[1..], at, subject, at + Ticks(NOTICE_SECONDS));
        LeadADayApart(at, rest);
      }
    }
  }

  // ------------------------------------------------------ what clearing leaves

  /** After a clearing, its subject waits for the wrong codes alone, and everybody else as before. */
  lemma ClearingLeavesCodeWait(settings: Settings, rows: Rows, subject: Subject, other: Subject, now: nat)
    ensures
      var long := Limit(CodeFailures, settings.codeAttempts, settings.codeSeconds);
      LockoutWait(settings, ClearFailures(rows, subject), subject, now) == WaitOf(rows, long, subject, now)
    ensures other != subject ==>
      LockoutWait(settings, ClearFailures(rows, subject), other, now) == LockoutWait(settings, rows, other, now)
  {
    var cleared := ClearFailures(rows, subject);
    var short := Limit(Failures, settings.attempts, settings.seconds);
    var long := Limit(CodeFailures, settings.codeAttempts, settings.codeSeconds);
    LockoutWaitUnrolled(settings, cleared, subject, now);
    NothingRunningNoWait(cleared, short, subject, now);
    SameRunningSameWait(cleared, rows, long, subject, now);
    if other != subject {
      SameWindowsSameWait(settings, cleared, rows, other, now);
    }
  }

  /** After clearing everything its subject may be tried at once, everybody else waits as before, and no notice is forgotten. */
  lemma ClearingAllFrees(settings: Settings, rows: Rows, subject: Subject, other: Subject, now: nat)
    ensures LockoutWait(settings, ClearAllFailures(rows, subject), subject, now).None?
    ensures other != subject ==>
      LockoutWait(settings, ClearAllFailures(rows, subject), other, now) == LockoutWait(settings, rows, other, now)
    ensures Running(ClearAllFailures(rows, subject), Key(NoticeMark, other), now) == Running(rows, Key(NoticeMark, other), now)
  {
    var cleared := ClearAllFailures(rows, subject);
    LockoutWaitUnrolled(settings, cleared, subject, now);
    NothingRunningNoWait(cleared, Limit(Failures, settings.attempts, settings.seconds), subject, now);
    NothingRunningNoWait(cleared, Limit(CodeFailures, settings.codeAttempts, settings.codeSeconds), subject, now);
    if other != subject {
      SameWindowsSameWait(settings, cleared, rows, other, now);
    }
  }

  // ------------------------------------------------ dead rows change nothing

  /** The two tables hold the same running counts. */
  ghost predicate SameRunning(a: Rows, b: Rows, now: nat) {
    forall k :: Running(a, k, now) == Running(b, k, now)
  }

  lemma SameStaysSame(a: Rows, b: Rows, now: nat, later: nat)
    requires SameRunning(a, b, now) && now <= later
    ensures SameRunning(a, b, later)
  {
    forall k ensures Running(a, k, later) == Running(b, k, later) {
      assert Running(a, k, now) == Running(b, k, now);
    }
  }

  lemma SameWait(settings: Settings, a: Rows, b: Rows, subject: Subject, now: nat)
    requires SameRunning(a, b, now)
    ensures LockoutWait(settings, a, subject, now) == LockoutWait(settings, b, subject, now)
  {
    SameWindowsSameWait(settings, a, b, subject, now);
  }

  lemma SameCounted(a: Rows, b: Rows, key: Key, seconds: nat, now: nat)
    requires SameRunning(a, b, now)
    ensures Counted(a, key, seconds, now) == Counted(b, key, seconds, now)
    ensures SameRunning(a[key := Counted(a, key, seconds, now)], b[key := Counted(b, key, seconds, now)], now)
  {
    assert Running(a, key, now) == Running(b, key, now);
    var a', b' := a[key := Counted(a, key, seconds, now)], b[key := Counted(b, key, seconds, now)];
    forall k ensures Running(a', k, now) == Running(b', k, now) {
      assert Running(a, k, now) == Running(b, k, now);
    }
  }

  lemma SameCountLimit(a: Rows, b: Rows, limit: Limit, subject: Subject, hasAccount: bool, now: nat)
    requires SameRunning(a, b, now) && IsOn(limit)
    ensures
      var x, y := CountLimit(a, limit, subject, hasAccount, now), CountLimit(b, limit, subject, hasAccount, now);
      x.notices == y.notices && SameRunning(x.rows, y.rows, now)
  {
    var key := Key(limit.name, subject);
    SameCounted(a, b, key, limit.seconds, now);
    var a', b' := a[key := Counted(a, key, limit.seconds, now)], b[key := Counted(b, key, limit.seconds, now)];
    SameCounted(a', b', Key(NoticeMark, subject), NOTICE_SECONDS, now);
  }

  lemma {:induction false} SameCountLimits(a: Rows, b: Rows, limits: seq<Limit>, subject: Subject, hasAccount: bool, now: nat)
    requires SameRunning(a, b, now) && forall l :: l in limits ==> IsOn(l)
    ensures
      var x, y := CountLimits(a, limits, subject, hasAccount, now), CountLimits(b, limits, subject, hasAccount, now);
      x.notices == y.notices && SameRunning(x.rows, y.rows, now)
  {
    if limits != [] {
      var init := limits[..|limits| - 1];
      SameCountLimits(a, b, init, subject, hasAccount, now);
      SameCountLimit(CountLimits(a, init, subject, hasAccount, now).rows, CountLimits(b, init, subject, hasAccount, now).rows,
                     limits[|limits| - 1], subject, hasAccount, now);
    }
  }

  lemma SameStep(settings: Settings, a: Rows, b: Rows, op: Op, now: nat)
    requires SameRunning(a, b, now)
    ensures Do(settings, a, op, now).1 == Do(settings, b, op, now).1
    ensures SameRunning(Do(settings, a, op, now).0, Do(settings, b, op, now).0, now)
  {
    var x, y := Do(settings, a, op, now).0, Do(settings, b, op, now).0;
    match op
    case Fail(subject, hasAccount, code) =>
      SameWait(settings, a, b, subject, now);
      if LockoutWait(settings, a, subject, now).None? {
        var limits := Limits(settings, code);
        SameCountLimits(a, b, limits, subject, hasAccount, now);
        var x0, y0 := CountLimits(a, limits, subject, hasAccount, now).rows, CountLimits(b, limits, subject, hasAccount, now).rows;
        forall k ensures Running(x, k, now) == Running(y, k, now) {
          SweepKeepsRunning(x0, k, now);
          SweepKeepsRunning(y0, k, now);
          assert Running(x0, k, now) == Running(y0, k, now);
        }
      }
    case Ask(subject) => SameWait(settings, a, b, subject, now);
    case _ =>
      forall k ensures Running(x, k, now) == Running(y, k, now) {
        assert Running(a, k, now) == Running(b, k, now);
      }
  }

  lemma {:induction false} SameAnswers(settings: Settings, a: Rows, b: Rows, events: seq<Event>, now: nat)
    requires SameRunning(a, b, now)
    ensures Answers(settings, a, events, now) == Answers(settings, b, events, now)
    decreases |events|
  {
    if events != [] {
      var at := now + events[0].wait;
      SameStaysSame(a, b, now, at);
      SameStep(settings, a, b, events[0].op, at);
      SameAnswers(settings, Do(settings, a, events[0].op, at).0, Do(settings, b, events[0].op, at).0, events[1..], at);
    }
  }

  /** Deleting rows whose windows have passed never changes a later answer. */
  lemma {:induction false} DeadRowsChangeNothing(settings: Settings, rows: Rows, dead: set<Key>, events: seq<Event>, now: nat)
    requires forall k :: k in dead && k in rows ==> rows[k].until <= now
    ensures Answers(settings, rows - dead, events, now) == Answers(settings, rows, events, now)
  {
    forall k ensures Running(rows - dead, k, now) == Running(rows, k, now) {
    }
    SameAnswers(settings, rows - dead, rows, events, now);
  }
}
