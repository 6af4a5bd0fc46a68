/** The bulk import of the FAA's aircraft registry. */
module Registry {
  import opened Outcomes

  // ---------------------------------------------------------- registrations

  datatype Registrant =
    | Individual | Partnership | Corporation | CoOwned | Government | Llc | NonCitizenCorporation | NonCitizenCoOwned
    | Unknown

  /** One row of the master file. */
  datatype Row = Row(
    nNumber: string,
    faaCode: string,
    year: Option<nat>,
    registrantName: string,
    registrant: Registrant,
    status: string,
    certificateIssuedOn: Option<nat>,
    expiresOn: Option<nat>,
    airworthiness: string
  )

  /** What the registrations table holds for an N-number. */
  datatype Registration = Registration(
    typeId: nat,
    year: Option<nat>,
    registrantName: string,
    registrant: Registrant,
    status: string,
    certificateIssuedOn: Option<nat>,
    expiresOn: Option<nat>,
    airworthiness: string,
    importedAt: nat
  )

  type Table = map<string, Registration>

  const REGISTRANT_NAME_LENGTH := 160

  /** How a registrant's name is shown. */
  type Display = (string, Registrant) -> string

  function Shortened(s: string, length: nat): string {
    if |s| <= length then s else s[..length]
  }

  /** The registration a row of a known type writes. */
  function Written(shown: Display, typeIds: map<string, nat>, stamp: nat, row: Row): Registration
    requires row.faaCode in typeIds
  {
    Registration(
      typeIds[row.faaCode], row.year,
      Shortened(shown(row.registrantName, row.registrant), REGISTRANT_NAME_LENGTH),
      row.registrant, row.status, row.certificateIssuedOn, row.expiresOn, row.airworthiness, stamp)
  }

  /** What the rows alone say: for each N-number of a row of a known type, what its last such row writes. */
  function LastRows(shown: Display, typeIds: map<string, nat>, stamp: nat, rows: seq<Row>): Table {
    if rows == [] then map[]
    else
      var row, earlier := rows[|rows| - 1], LastRows(shown, typeIds, stamp, rows[..|rows| - 1]);
      if row.faaCode in typeIds then earlier[row.nNumber := Written(shown, typeIds, stamp, row)] else earlier
  }

  /** No row of a known type after `i` has its N-number. */
  predicate IsLastRow(typeIds: map<string, nat>, rows: seq<Row>, i: int) {
    && 0 <= i < |rows| && rows[i].faaCode in typeIds
    && forall j :: i < j < |rows| && rows[j].nNumber == rows[i].nNumber ==> rows[j].faaCode !in typeIds
  }

  lemma {:induction false} LastRowIsWritten(
      shown: Display, typeIds: map<string, nat>, stamp: nat, rows: seq<Row>, i: nat)
    requires IsLastRow(typeIds, rows, i)
    ensures rows[i].nNumber in LastRows(shown, typeIds, stamp, rows)
    ensures LastRows(shown, typeIds, stamp, rows)[rows[i].nNumber] == Written(shown, typeIds, stamp, rows[i])
  {
    var n := |rows| - 1;
    if i < n {
      assert rows[..n][i] == rows[i];
      LastRowIsWritten(shown, typeIds, stamp, rows[..n], i);
    }
  }

  lemma {:induction false} WrittenHasLastRow(
      shown: Display, typeIds: map<string, nat>, stamp: nat, rows: seq<Row>, nNumber: string) returns (i: nat)
    requires nNumber in LastRows(shown, typeIds, stamp, rows)
    ensures IsLastRow(typeIds, rows, i) && rows[i].nNumber == nNumber
  {
    var n := |rows| - 1;
    if rows[n].faaCode in typeIds && rows[n].nNumber == nNumber {
      i := n;
    } else {
      i := WrittenHasLastRow(shown, typeIds, stamp, rows[..n], nNumber);
    }
  }

  /** Exactly the N-numbers with a row of a known type, each with the values of the last such row. */
  lemma {:induction false} LastRowsAre(shown: Display, typeIds: map<string, nat>, stamp: nat, rows: seq<Row>, nNumber: string)
    ensures nNumber in LastRows(shown, typeIds, stamp, rows) <==>
            exists i :: IsLastRow(typeIds, rows, i) && rows[i].nNumber == nNumber
    ensures forall i :: IsLastRow(typeIds, rows, i) && rows[i].nNumber == nNumber ==>
            LastRows(shown, typeIds, stamp, rows)[nNumber] == Written(shown, typeIds, stamp, rows[i])
  {
    forall i | IsLastRow(typeIds, rows, i) && rows[i].nNumber == nNumber
      ensures nNumber in LastRows(shown, typeIds, stamp, rows)
      ensures LastRows(shown, typeIds, stamp, rows)[nNumber] == Written(shown, typeIds, stamp, rows[i])
    {
      LastRowIsWritten(shown, typeIds, stamp, rows, i);
    }
    if nNumber in LastRows(shown, typeIds, stamp, rows) {
      var i := WrittenHasLastRow(shown, typeIds, stamp, rows, nNumber);
    }
  }

  lemma {:induction false} LastRowsCarryStamp(
      shown: Display, typeIds: map<string, nat>, stamp: nat, rows: seq<Row>)
    ensures forall n :: n in LastRows(shown, typeIds, stamp, rows) ==>
      LastRows(shown, typeIds, stamp, rows)[n].importedAt == stamp
  {
    if rows != [] {
      LastRowsCarryStamp(shown, typeIds, stamp, rows[..|rows| - 1]);
    }
  }

  /** The registrations of `table` that carry `stamp`. */
  function Stamped(table: Table, stamp: nat): Table {
    map n | n in table && table[n].importedAt == stamp :: table[n]
  }

  /** Deleting what lacks the stamp leaves what the rows wrote over what already carried it. */
  lemma StampedMerge(
      shown: Display, typeIds: map<string, nat>, stamp: nat, rows: seq<Row>, table: Table)
    ensures Stamped(table + LastRows(shown, typeIds, stamp, rows), stamp)
         == Stamped(table, stamp) - LastRows(shown, typeIds, stamp, rows).Keys + LastRows(shown, typeIds, stamp, rows)
  {
    LastRowsCarryStamp(shown, typeIds, stamp, rows);
  }

  // ------------------------------------------------------------ the batches

  /** How rows fall into batches: the N-numbers of each batch that is full, and of the one being filled. */
  datatype Batches = Batches(full: seq<set<string>>, filling: set<string>)

  function BatchesOf(typeIds: map<string, nat>, batchSize: nat, rows: seq<Row>): Batches {
    if rows == [] then Batches([], {})
    else
      var row, earlier := rows[|rows| - 1], BatchesOf(typeIds, batchSize, rows[..|rows| - 1]);
      if row.faaCode in typeIds then Joined(earlier, row.nNumber, batchSize) else earlier
  }

  /** One N-number more, closing the batch when that fills it. */
  function Joined(batches: Batches, nNumber: string, batchSize: nat): Batches {
    var filling := batches.filling + {nNumber};
    if |filling| >= batchSize then Batches(batches.full + [filling], {}) else Batches(batches.full, filling)
  }

  /** Every batch in turn, the last one as far as it was filled. */
  function AllBatches(typeIds: map<string, nat>, batchSize: nat, rows: seq<Row>): seq<set<string>> {
    var batches := BatchesOf(typeIds, batchSize, rows);
    batches.full + [batches.filling]
  }

  function Sum(batches: seq<set<string>>): nat {
    if batches == [] then 0 else Sum(batches[..|batches| - 1]) + |batches[|batches| - 1]|
  }

  function Together(batches: seq<set<string>>): set<string> {
    if batches == [] then {} else Together(batches[..|batches| - 1]) + batches[|batches| - 1]
  }

  /** No N-number is in two batches. */
  predicate NoneInTwo(batches: seq<set<string>>) {
    forall a, b :: 0 <= a < b < |batches| ==> batches[a] !! batches[b]
  }

  lemma BatchMore(batches: seq<set<string>>, last: set<string>)
    ensures Sum(batches + [last]) == Sum(batches) + |last|
    ensures Together(batches + [last]) == Together(batches) + last
  {
    assert (batches + [last])[..|batches|] == batches;
  }

  lemma {:induction false} TogetherHolds(batches: seq<set<string>>, n: string)
    ensures n in Together(batches) <==> exists b :: 0 <= b < |batches| && n in batches[b]
  {
    if batches != [] {
      TogetherHolds(batches[..|batches| - 1], n);
    }
  }

  lemma NoneInTwoMore(batches: seq<set<string>>, last: set<string>)
    ensures NoneInTwo(batches + [last]) <==> NoneInTwo(batches) && Together(batches) !! last
  {
    var all := batches + [last];
    if NoneInTwo(all) {
      forall a, b | 0 <= a < b < |batches| ensures batches[a] !! batches[b] {
        assert all[a] !! all[b];
      }
      forall n | n in Together(batches) ensures n !in last {
        TogetherHolds(batches, n);
        var a :| 0 <= a < |batches| && n in batches[a];
        assert all[a] !! all[|batches|];
      }
    }
    if NoneInTwo(batches) && Together(batches) !! last {
      forall a | 0 <= a < |batches| ensures batches[a] !! last {
        forall n | n in batches[a] ensures n !in last {
          TogetherHolds(batches, n);
        }
      }
    }
  }

  lemma {:induction false} SumOfBatches(batches: seq<set<string>>)
    ensures |Together(batches)| <= Sum(batches)
    ensures |Together(batches)| == Sum(batches) <==> NoneInTwo(batches)
  {
    if batches != [] {
      var before, last := batches[..|batches| - 1], batches[|batches| - 1];
      SumOfBatches(before);
      SizeOfBoth(Together(before), last);
      assert batches == before + [last];
      NoneInTwoMore(before, last);
    }
  }

  lemma SizeOfBoth(a: set<string>, b: set<string>)
    ensures |a + b| <= |a| + |b|
    ensures |a + b| == |a| + |b| <==> a !! b
  {
    assert |a + b| == |a| + |b| - |a * b|;
    if a !! b {
      assert a * b == {};
    }
    if a * b == {} {
      forall n | n in a ensures n !in b {
        assert n !in a * b;
      }
    }
  }

  /** Together the batches hold the N-numbers the rows write. */
  lemma {:induction false} BatchesHoldWhatIsWritten(
      shown: Display, typeIds: map<string, nat>, stamp: nat, batchSize: nat, rows: seq<Row>)
    ensures Together(AllBatches(typeIds, batchSize, rows)) == LastRows(shown, typeIds, stamp, rows).Keys
  {
    var batches := BatchesOf(typeIds, batchSize, rows);
    BatchMore(batches.full, batches.filling);
    if rows != [] {
      var row, before := rows[|rows| - 1], rows[..|rows| - 1];
      BatchesHoldWhatIsWritten(shown, typeIds, stamp, batchSize, before);
      var earlier := BatchesOf(typeIds, batchSize, before);
      BatchMore(earlier.full, earlier.filling);
      BatchMore(earlier.full, earlier.filling + {row.nNumber});
    }
  }

  /** Every batch but the last holds `batchSize` N-numbers, and the last fewer. */
  lemma {:induction false} BatchesAreFull(typeIds: map<string, nat>, batchSize: nat, rows: seq<Row>)
    requires batchSize >= 1
    ensures
      var batches := BatchesOf(typeIds, batchSize, rows);
      && |batches.filling| < batchSize
      && forall b :: 0 <= b < |batches.full| ==> |batches.full[b]| == batchSize
  {
    if rows != [] {
      var row, before := rows[|rows| - 1], rows[..|rows| - 1];
      BatchesAreFull(typeIds, batchSize, before);
      SizeOfBoth(BatchesOf(typeIds, batchSize, before).filling, {row.nNumber});
    }
  }

  /** What the batches add up to is the number of registrations written, exactly when none is in two of them. */
  lemma CountIsTheTablesIff(source: Source, batchSize: nat)
    ensures
      var last := LastRows(source.shown, source.typeIds, source.stamp, source.rows);
      var batches := AllBatches(source.typeIds, batchSize, source.rows);
      && |last| <= Sum(batches)
      && (Sum(batches) == |last| <==> NoneInTwo(batches))
  {
    BatchesHoldWhatIsWritten(source.shown, source.typeIds, source.stamp, batchSize, source.rows);
    SumOfBatches(AllBatches(source.typeIds, batchSize, source.rows));
  }

  // ------------------------------------------------------ the batched write

  /** The file's rows, and what each one is turned into. */
  datatype Source = Source(shown: Display, typeIds: map<string, nat>, stamp: nat, rows: seq<Row>)

  /** The rows of no known type. */
  function Untyped(source: Source): set<int> {
    set i | 0 <= i < |source.rows| && source.rows[i].faaCode !in source.typeIds
  }

  function With(done: Source, row: Row): Source {
    done.(rows := done.rows + [row])
  }

  /** The write has got through the rows of `done`: the table was `base`, and `batch` is still to be flushed. */
  ghost predicate Progress(done: Source, base: Table, table: Table, batchSize: nat, batch: Table, written: nat,
                           skipped: nat)
  {
    var batches := BatchesOf(done.typeIds, batchSize, done.rows);
    && table + batch == base + LastRows(done.shown, done.typeIds, done.stamp, done.rows)
    && batch.Keys == batches.filling
    && written == Sum(batches.full)
    && skipped == |Untyped(done)|
    && written + |batch| + skipped <= |done.rows|
  }

  /** One row more: what it writes, and the batch it joins. */
  lemma OneRowMore(done: Source, row: Row, batchSize: nat)
    ensures
      var more := With(done, row);
      var last := LastRows(done.shown, done.typeIds, done.stamp, done.rows);
      var batches := BatchesOf(done.typeIds, batchSize, done.rows);
      if row.faaCode in done.typeIds then
        && LastRows(done.shown, done.typeIds, done.stamp, more.rows)
            == last[row.nNumber := Written(done.shown, done.typeIds, done.stamp, row)]
        && BatchesOf(done.typeIds, batchSize, more.rows) == Joined(batches, row.nNumber, batchSize)
        && Untyped(more) == Untyped(done)
      else
        && LastRows(done.shown, done.typeIds, done.stamp, more.rows) == last
        && BatchesOf(done.typeIds, batchSize, more.rows) == batches
        && Untyped(more) == Untyped(done) + {|done.rows|}
  {
    var more := With(done, row);
    assert more.rows[..|done.rows|] == done.rows;
    UntypedOneMore(done, row);
  }

  /** With batches of one, an N-number on two rows is counted twice. */
  lemma CountedTwice(source: Source, row: Row)
    requires source.rows == [row, row] && row.faaCode in source.typeIds
    ensures Sum(AllBatches(source.typeIds, 1, source.rows)) == 2
    ensures |LastRows(source.shown, source.typeIds, source.stamp, source.rows)| == 1
  {
    var none, n := source.(rows := []), row.nNumber;
    var one := With(none, row);
    assert With(one, row) == source;
    OneRowMore(none, row, 1);
    OneRowMore(one, row, 1);
    assert Joined(Batches([], {}), n, 1) == Batches([{n}], {});
    assert Joined(Batches([{n}], {}), n, 1) == Batches([{n}] + [{n}], {});
    BatchMore([], {n});
    BatchMore([{n}], {n});
    BatchMore([{n}] + [{n}], {});
    KeysOfBatch(map[], n, Written(source.shown, source.typeIds, source.stamp, row));
    assert LastRows(source.shown, source.typeIds, source.stamp, source.rows)
        == map[n := Written(source.shown, source.typeIds, source.stamp, row)];
  }

  lemma UntypedOneMore(done: Source, row: Row)
    ensures Untyped(With(done, row)) == Untyped(done) + if row.faaCode in done.typeIds then {} else {|done.rows|}
  {
  }

  lemma RowSkipped(done: Source, row: Row, base: Table, table: Table, batchSize: nat, batch: Table, written: nat,
                   skipped: nat)
    requires Progress(done, base, table, batchSize, batch, written, skipped) && row.faaCode !in done.typeIds
    ensures Progress(With(done, row), base, table, batchSize, batch, written, skipped + 1)
  {
    OneRowMore(done, row, batchSize);
  }

  /** A row joins the batch, which is flushed when that fills it. */
  lemma RowAdded(done: Source, row: Row, base: Table, table: Table, batchSize: nat, batch: Table, written: nat,
                 skipped: nat)
    requires Progress(done, base, table, batchSize, batch, written, skipped) && row.faaCode in done.typeIds
    ensures
      var more := batch[row.nNumber := Written(done.shown, done.typeIds, done.stamp, row)];
      if |more| >= batchSize
      then Progress(With(done, row), base, table + more, batchSize, map[], written + |more|, skipped)
      else Progress(With(done, row), base, table, batchSize, more, written, skipped)
  {
    OneRowMore(done, row, batchSize);
    var n, registration := row.nNumber, Written(done.shown, done.typeIds, done.stamp, row);
    MergeThenAdd(table, batch, n, registration);
    MergeThenAdd(base, LastRows(done.shown, done.typeIds, done.stamp, done.rows), n, registration);
    KeysOfBatch(batch, n, registration);
    BatchMore(BatchesOf(done.typeIds, batchSize, done.rows).full, batch.Keys + {n});
    NothingMore(table + batch[n := registration]);
  }

  lemma NothingMore(table: Table)
    ensures table + map[] == table
  {
  }

  lemma KeysOfBatch(batch: Table, n: string, registration: Registration)
    ensures var more := batch[n := registration];
      more.Keys == batch.Keys + {n} && |more| == |batch.Keys + {n}| && |more| <= |batch| + 1
  {
    assert batch[n := registration].Keys == batch.Keys + {n};
  }

  lemma MergeThenAdd(a: Table, b: Table, n: string, registration: Registration)
    ensures a + b[n := registration] == (a + b)[n := registration]
  {
  }

  /** What the import leaves of `table`: the rows' last word on each N-number, over what already carried the stamp. */
  function Imported(source: Source, table: Table): Table {
    var last := LastRows(source.shown, source.typeIds, source.stamp, source.rows);
    Stamped(table, source.stamp) - last.Keys + last
  }

  lemma AllWritten(source: Source, base: Table, table: Table, batchSize: nat, batch: Table, written: nat, skipped: nat)
    requires Progress(source, base, table, batchSize, batch, written, skipped)
    ensures Stamped(table + batch, source.stamp) == Imported(source, base)
    ensures written + |batch| == Sum(AllBatches(source.typeIds, batchSize, source.rows))
  {
    StampedMerge(source.shown, source.typeIds, source.stamp, source.rows, base);
    var batches := BatchesOf(source.typeIds, batchSize, source.rows);
    BatchMore(batches.full, batches.filling);
  }

  class Register {
    var registrations: Table

    constructor (registrations: Table)
      ensures this.registrations == registrations
    {
      this.registrations := registrations;
    }

    /** Upsert `batch` by N-number, and empty it. */
    method Flush(batch: Table) returns (count: nat, emptied: Table)
      modifies this
      ensures registrations == old(registrations) + batch
      ensures count == |batch| && emptied == map[]
    {
      count := |batch|;
      registrations := registrations + batch;
      emptied := map[];
    }

    /**
     Upsert the rows in batches of `batchSize`, then delete every registration without the fresh
     stamp.  The batch size makes no difference to what is left, only to what is counted: the batches
     add up to more than the file's registrations when an N-number is in two of them.
     */
    method WriteRegistrations(source: Source, batchSize: nat) returns (written: nat, skipped: nat)
      requires batchSize >= 1
      modifies this
      ensures registrations == Imported(source, old(registrations))
      ensures
        var batches := AllBatches(source.typeIds, batchSize, source.rows);
        var last := LastRows(source.shown, source.typeIds, source.stamp, source.rows);
        && written == Sum(batches)
        && |last| <= written && (written == |last| <==> NoneInTwo(batches))
      ensures skipped == |Untyped(source)| && written + skipped <= |source.rows|
    {
      ghost var base := registrations;
      written, skipped := 0, 0;
      var batch: Table := map[];
      ghost var done := source.(rows := []);
      var i := 0;
      while i < |source.rows|
        invariant i <= |source.rows| && done == source.(rows := source.rows[..i])
        invariant Progress(done, base, registrations, batchSize, batch, written, skipped)
      {
        var row, next := source.rows[i], i + 1;
        if row.faaCode !in source.typeIds {
          RowSkipped(done, row, base, registrations, batchSize, batch, written, skipped);
          skipped := skipped + 1;
        } else {
          RowAdded(done, row, base, registrations, batchSize, batch, written, skipped);
          batch := batch[row.nNumber := Written(source.shown, source.typeIds, source.stamp, row)];
          if |batch| >= batchSize {
            var count;
            count, batch := Flush(batch);
            written := written + count;
          }
        }
        done := With(done, row);
        assert source.rows[..next] == source.rows[..i] + [row];
        i := next;
      }
      assert source.rows[..|source.rows|] == source.rows;
      AllWritten(source, base, registrations, batchSize, batch, written, skipped);
      var count;
      count, batch := Flush(batch);
      written := written + count;
      CountIsTheTablesIff(source, batchSize);
      registrations := Stamped(registrations, source.stamp);
    }
  }

  /**
   From a table without the fresh stamp, the registrations are exactly what the rows say, and nothing
   of what the table held is left.
   */
  lemma OnlyTheFileIsLeft(source: Source, table: Table, nNumber: string)
    requires forall n :: n in table ==> table[n].importedAt != source.stamp
    ensures nNumber in Imported(source, table) <==>
            exists i :: IsLastRow(source.typeIds, source.rows, i) && source.rows[i].nNumber == nNumber
    ensures forall i :: IsLastRow(source.typeIds, source.rows, i) && source.rows[i].nNumber == nNumber ==>
            Imported(source, table)[nNumber] == Written(source.shown, source.typeIds, source.stamp, source.rows[i])
  {
    LastRowsAre(source.shown, source.typeIds, source.stamp, source.rows, nNumber);
  }

  /**
   Column by column, what the import leaves for an N-number: the type of the last row's code, that row's own values,
   its registrant's name as shown, cut at 160 characters, and the fresh stamp.
   */
  lemma ColumnsAreTheLastRows(source: Source, table: Table, i: nat)
    requires IsLastRow(source.typeIds, source.rows, i)
    ensures source.rows[i].nNumber in Imported(source, table)
    ensures
      var row := source.rows[i];
      var name := source.shown(row.registrantName, row.registrant);
      var written := Imported(source, table)[row.nNumber];
      && written.typeId == source.typeIds[row.faaCode] && written.year == row.year
      && written.registrant == row.registrant && written.status == row.status
      && written.certificateIssuedOn == row.certificateIssuedOn && written.expiresOn == row.expiresOn
      && written.airworthiness == row.airworthiness && written.importedAt == source.stamp
      && written.registrantName <= name && |written.registrantName| == (if |name| < 160 then |name| else 160)
  {
    LastRowIsWritten(source.shown, source.typeIds, source.stamp, source.rows, i);
  }
}
