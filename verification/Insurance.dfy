/** The verification of an aircraft's insurance, and the writes that end it. */
module Insurance {
  import opened Outcomes

  /** The record's columns, the six of the insurance by name. */
  datatype Column =
    | Carrier | PolicyNumber | PerOccurrenceCents | PerPersonCents | HullCents | Expiration
    | OtherColumn(name: string)

  datatype Datum = Words(text: string) | Number(n: int) | Missing

  type Columns = map<Column, Datum>

  predicate IsInsurance(c: Column) { !c.OtherColumn? }

  /** What the record says of the insurance. */
  function InsuranceOf(columns: Columns): Columns {
    map c | c in columns && IsInsurance(c) :: columns[c]
  }

  predicate OnFile(columns: Columns) {
    Expiration in columns && columns[Expiration] != Missing
  }

  /** The columns among `changes` whose value differs from the record's; keys that are no column do not count. */
  function ChangedFields(columns: Columns, changes: Columns): set<Column> {
    set c | c in changes && c in columns && columns[c] != changes[c]
  }

  /** The record with `changes` written to its columns. */
  function Saved(columns: Columns, changes: Columns): Columns {
    map c | c in columns :: if c in changes then changes[c] else columns[c]
  }

  /** A verification: its moment and its verifier. */
  datatype Stamp = Stamp(at: nat, verifier: nat)

  datatype Notice =
    | AircraftChanged(fields: set<Column>, actor: nat)
    | VerificationChanged(verified: bool, cleared: bool, actor: nat)

  datatype Change = Change(actor: nat, fields: set<Column>)

  /** One aircraft's record, its history, and the events raised about it. */
  datatype Record = Record(columns: Columns, stamp: Option<Stamp>, history: seq<Change>, notices: seq<Notice>)

  // ---------------------------------------------------------- what each write does

  predicate MovesInsurance(columns: Columns, changes: Columns) {
    exists c :: c in ChangedFields(columns, changes) && IsInsurance(c)
  }

  /** An edit of the register: the save, its history, and the end of a verification it made stale. */
  function Edited(record: Record, changes: Columns, actor: nat): Record {
    var fields := ChangedFields(record.columns, changes);
    Record(
      Saved(record.columns, changes),
      if MovesInsurance(record.columns, changes) then None else record.stamp,
      record.history + [Change(actor, fields)],
      record.notices + if fields != {} then [AircraftChanged(fields, actor)] else [])
  }

  /** A verifier's write of `changes`, with the verdict `verdict`. */
  function Judged(record: Record, changes: Columns, verdict: bool, actor: nat, now: nat): Record {
    var saved := Edited(record, changes, actor);
    var verified := verdict && OnFile(saved.columns);
    var stamps := verified && saved.stamp.None?;
    var cleared := record.stamp.Some? && !verified;
    saved.(
      stamp := if stamps then Some(Stamp(now, actor)) else if verified then saved.stamp else None,
      notices := saved.notices + if stamps || cleared then [VerificationChanged(stamps, cleared, actor)] else [])
  }

  class Aircraft {
    var columns: Columns
    var insuranceVerifiedAt: Option<nat>
    var insuranceVerifiedBy: Option<nat>
    var history: seq<Change>
    var notices: seq<Notice>

    constructor (columns: Columns)
      ensures Valid() && View() == Record(columns, None, [], [])
    {
      this.columns, insuranceVerifiedAt, insuranceVerifiedBy, history, notices := columns, None, None, [], [];
    }

    /** The two columns of a verification are written and cleared together. */
    ghost predicate Valid()
      reads this
    {
      insuranceVerifiedAt.Some? <==> insuranceVerifiedBy.Some?
    }

    ghost function View(): Record
      requires Valid()
      reads this
    {
      Record(
        columns,
        if insuranceVerifiedAt.None? then None else Some(Stamp(insuranceVerifiedAt.value, insuranceVerifiedBy.value)),
        history, notices)
    }

    /** End a verification when `moved` names a column of the insurance. */
    method ClearStaleInsurance(moved: set<Column>) returns (cleared: bool)
      modifies `insuranceVerifiedAt, `insuranceVerifiedBy
      ensures cleared <==> old(insuranceVerifiedAt).Some? && exists c :: c in moved && IsInsurance(c)
      ensures insuranceVerifiedAt == if cleared then None else old(insuranceVerifiedAt)
      ensures insuranceVerifiedBy == if cleared then None else old(insuranceVerifiedBy)
    {
      if !(exists c :: c in moved && IsInsurance(c)) {
        return false;
      }
      if insuranceVerifiedAt.None? {
        return false;
      }
      insuranceVerifiedAt, insuranceVerifiedBy := None, None;
      return true;
    }

    method RecordUpdated(actor: nat, fields: set<Column>)
      requires Valid()
      modifies `insuranceVerifiedAt, `insuranceVerifiedBy, `history, `notices
      ensures Valid()
      ensures insuranceVerifiedBy == old(insuranceVerifiedBy) || insuranceVerifiedAt.None?
      ensures insuranceVerifiedAt == if exists c :: c in fields && IsInsurance(c) then None else old(insuranceVerifiedAt)
      ensures history == old(history) + [Change(actor, fields)]
      ensures notices == old(notices) + if fields != {} then [AircraftChanged(fields, actor)] else []
    {
      var cleared := ClearStaleInsurance(fields);
      history := history + [Change(actor, fields)];
      if |fields| > 0 {
        notices := notices + [AircraftChanged(fields, actor)];
      }
    }

    /** Save an edit of the register, and record it. */
    method Edit(changes: Columns, actor: nat)
      requires Valid()
      modifies this
      ensures Valid() && View() == Edited(old(View()), changes, actor)
    {
      var fields := ChangedFields(columns, changes);
      columns := Saved(columns, changes);
      RecordUpdated(actor, fields);
    }

    /** Write `changes` to the insurance, and leave it verified or not. */
    method VerifyInsurance(changes: Columns, verdict: bool, actor: nat, now: nat)
      requires Valid()
      modifies this
      ensures Valid() && View() == Judged(old(View()), changes, verdict, actor, now)
    {
      var wasVerified := insuranceVerifiedAt.Some?;
      var moved := ChangedFields(columns, changes);
      columns := Saved(columns, changes);
      RecordUpdated(actor, moved);
      var stamped := false;
      var verified := verdict && OnFile(columns);
      if verified && insuranceVerifiedAt.None? {
        insuranceVerifiedAt, insuranceVerifiedBy := Some(now), Some(actor);
        stamped := true;
      } else if !verified {
        insuranceVerifiedAt, insuranceVerifiedBy := None, None;
      }
      var cleared := wasVerified && !verified;
      if stamped || cleared {
        notices := notices + [VerificationChanged(stamped, cleared, actor)];
      }
    }
  }

  // --------------------------------------------------------------- over any run

  datatype Step = Edit(changes: Columns) | Verify(changes: Columns, verdict: bool)

  /** A step, some time after the one before, and whose it is. */
  datatype Event = Event(wait: nat, actor: nat, step: Step)

  datatype State = State(record: Record, now: nat)

  function Apply(state: State, event: Event): State {
    var now := state.now + 1 + event.wait;
    match event.step
    case Edit(changes) => State(Edited(state.record, changes, event.actor), now)
    case Verify(changes, verdict) => State(Judged(state.record, changes, verdict, event.actor, now), now)
  }

  function After(start: State, events: seq<Event>): State {
    if events == [] then start else Apply(After(start, events[..|events| - 1]), events[|events| - 1])
  }

  /** Step `k` of the run is a verifier's, and it put the stamp `stamp` on the insurance. */
  predicate StampsAt(start: State, events: seq<Event>, k: nat, stamp: Stamp)
    requires k < |events|
  {
    var now := After(start, events[..k]).now + 1 + events[k].wait;
    && events[k].step.Verify? && events[k].step.verdict
    && stamp == Stamp(now, events[k].actor)
    && After(start, events[..k + 1]).record.stamp == Some(stamp)
  }

  /** What the record said when step `k` had been taken is what it says of the insurance now. */
  predicate SaysTheSame(start: State, events: seq<Event>, k: nat)
    requires k < |events|
  {
    InsuranceOf(After(start, events[..k + 1]).record.columns) == InsuranceOf(After(start, events).record.columns)
  }

  lemma UnmovedInsurance(columns: Columns, changes: Columns)
    requires !MovesInsurance(columns, changes)
    ensures InsuranceOf(Saved(columns, changes)) == InsuranceOf(columns)
  {
    forall c | c in columns && IsInsurance(c) ensures Saved(columns, changes)[c] == columns[c] {
      assert c !in ChangedFields(columns, changes);
    }
  }

  /** A step that leaves the stamp it found leaves the insurance as it was. */
  lemma KeptStampKeptInsurance(state: State, event: Event)
    requires state.record.stamp.Some? && Apply(state, event).record.stamp == state.record.stamp
    requires state.record.stamp.value.at <= state.now
    ensures InsuranceOf(Apply(state, event).record.columns) == InsuranceOf(state.record.columns)
    ensures OnFile(state.record.columns) ==> OnFile(Apply(state, event).record.columns)
  {
    var changes := event.step.changes;
    if !MovesInsurance(state.record.columns, changes) {
      UnmovedInsurance(state.record.columns, changes);
      assert OnFile(state.record.columns) ==> Expiration in InsuranceOf(state.record.columns);
      assert OnFile(state.record.columns) ==> InsuranceOf(state.record.columns)[Expiration] != Missing;
      if OnFile(state.record.columns) {
        assert Expiration in InsuranceOf(Apply(state, event).record.columns);
      }
    }
  }

  lemma {:induction false} StampsAreDated(start: State, events: seq<Event>)
    requires start.record.stamp.None?
    ensures
      var state := After(start, events);
      state.record.stamp.Some? ==> state.record.stamp.value.at <= state.now
  {
    if events != [] {
      StampsAreDated(start, events[..|events| - 1]);
    }
  }

  /**
   In every run of edits and verifications from an unverified record, a stamped aircraft has an expiration
   on file, and a verifier's step of the run put that very stamp on the very insurance now on file.
   */
  lemma {:induction false} StampVouchesForWhatIsOnFile(start: State, events: seq<Event>) returns (k: nat)
    requires start.record.stamp.None? && After(start, events).record.stamp.Some?
    ensures OnFile(After(start, events).record.columns)
    ensures k < |events| && StampsAt(start, events, k, After(start, events).record.stamp.value)
    ensures SaysTheSame(start, events, k)
  {
    var n := |events| - 1;
    var before, stamp := After(start, events[..n]), After(start, events).record.stamp;
    assert events[..n + 1] == events;
    if before.record.stamp == stamp {
      k := StampVouchesForWhatIsOnFile(start, events[..n]);
      assert events[..n][..k] == events[..k] && events[..n][..k + 1] == events[..k + 1];
      StampsAreDated(start, events[..n]);
      KeptStampKeptInsurance(before, events[n]);
    } else {
      k := n;
    }
  }

  /**
   Verifying raises `verification_changed` exactly when the stamp it leaves is not the one it found, and
   says which of the two it was: stamped anew, or ended.
   */
  lemma VerificationChangedIff(record: Record, changes: Columns, verdict: bool, actor: nat, now: nat)
    requires record.stamp.Some? ==> record.stamp.value.at < now
    ensures
      var after := Judged(record, changes, verdict, actor, now);
      var saved := Edited(record, changes, actor);
      && (after.notices == saved.notices <==> after.stamp == record.stamp)
      && (after.notices == saved.notices + [VerificationChanged(true, false, actor)] <==>
            after.stamp != record.stamp && after.stamp.Some?)
      && (after.notices == saved.notices + [VerificationChanged(false, true, actor)] <==>
            after.stamp != record.stamp && after.stamp.None?)
  {
    var after := Judged(record, changes, verdict, actor, now);
    var saved := Edited(record, changes, actor);
    assert after.notices == saved.notices || |after.notices| == |saved.notices| + 1;
    if after.notices != saved.notices {
      assert after.notices[|saved.notices|].VerificationChanged?;
    }
  }

  /** Verified insurance keeps its stamp through a verdict that confirms it unchanged; anything else ends or renews it. */
  lemma {:induction false} StampKeptIff(record: Record, changes: Columns, verdict: bool, actor: nat, now: nat)
    requires record.stamp.Some? && record.stamp.value.at < now
    ensures Judged(record, changes, verdict, actor, now).stamp == record.stamp <==>
            verdict && OnFile(Saved(record.columns, changes)) &&
            InsuranceOf(Saved(record.columns, changes)) == InsuranceOf(record.columns)
  {
    if !MovesInsurance(record.columns, changes) {
      UnmovedInsurance(record.columns, changes);
    } else {
      var c :| c in ChangedFields(record.columns, changes) && IsInsurance(c);
      assert InsuranceOf(Saved(record.columns, changes))[c] != InsuranceOf(record.columns)[c];
    }
  }

  /** The columns whose values differ. */
  function Moved(before: Columns, after: Columns): set<Column> {
    set c | c in before && c in after && before[c] != after[c]
  }

  /**
   An edit writes the columns it names and no other, adds a row to the history that names exactly those whose value
   moved, raises the event exactly when one did, and ends a verification exactly when one of the insurance's did.
   */
  lemma EditTellsWhatMoved(record: Record, changes: Columns, actor: nat)
    ensures
      var after := Edited(record, changes, actor);
      var moved := Moved(record.columns, after.columns);
      && after.columns.Keys == record.columns.Keys
      && (forall c :: c in after.columns ==> after.columns[c] == if c in changes then changes[c] else record.columns[c])
      && after.history == record.history + [Change(actor, moved)]
      && after.notices == record.notices + (if moved == {} then [] else [AircraftChanged(moved, actor)])
      && (after.stamp == record.stamp || after.stamp.None?)
      && (after.stamp != record.stamp <==> record.stamp.Some? && exists c :: c in moved && !c.OtherColumn?)
  {
    assert ChangedFields(record.columns, changes) == Moved(record.columns, Saved(record.columns, changes));
    assert MovesInsurance(record.columns, changes) <==>
           exists c :: c in Moved(record.columns, Saved(record.columns, changes)) && !c.OtherColumn?;
  }

  /**
   A verifier's write is that edit, and leaves the insurance unverified without the verdict or without an expiration
   on file; with both, under the stamp it had when the insurance did not move, and otherwise under a new one.
   */
  lemma VerdictDecidesStamp(record: Record, changes: Columns, verdict: bool, actor: nat, now: nat)
    ensures
      var after, saved := Judged(record, changes, verdict, actor, now), Edited(record, changes, actor);
      && after.columns == saved.columns && after.history == saved.history
      && after.stamp ==
         if !verdict || Expiration !in after.columns || after.columns[Expiration] == Missing then None
         else if record.stamp.Some? && InsuranceOf(after.columns) == InsuranceOf(record.columns) then record.stamp
         else Some(Stamp(now, actor))
  {
    if !MovesInsurance(record.columns, changes) {
      UnmovedInsurance(record.columns, changes);
    } else {
      var c :| c in ChangedFields(record.columns, changes) && IsInsurance(c);
      assert InsuranceOf(Saved(record.columns, changes))[c] != InsuranceOf(record.columns)[c];
    }
  }
}
