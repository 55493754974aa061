/** Creating customers in bulk, and bringing existing ones up to date in bulk. */
module BulkImport {
  import opened Tables
  import opened ImportRows

  type CustomerRow = Row<Columns>

  /** A column compared with a value in a query: a missing value equals nothing. */
  predicate Equals(where: Field, stored: Field) {
    where.Text? && where == stored
  }

  const IDENTITY: seq<Column> := [Email, IdNo, MobileNumber, CustomerCode, Panno]

  function SameIdentity(row: Columns): Columns -> bool {
    (r: Columns) => forall k | k in IDENTITY :: Equals(Get(row, k), Get(r, k))
  }

  function WithCode(code: Field): Columns -> bool {
    (r: Columns) => Equals(code, Get(r, CustomerCode))
  }

  const NOTIFICATION_TIME := Other("notification_time")

  /** The row as saved: stamped with the notification time, missing properties stored as null. */
  function Stored(row: Columns, tomorrow: Field): Columns {
    map k | k in row.Keys + {NOTIFICATION_TIME} ::
      if k == NOTIFICATION_TIME then tomorrow
      else if row[k] == Undefined then Null else row[k]
  }

  // ---------------------------------------------------------------------------------------
  // bulkCustomerCreate
  // ---------------------------------------------------------------------------------------

  /** No active record has the same five identity columns. */
  predicate IsNew(table: seq<CustomerRow>, row: Columns) {
    FindLive(table, SameIdentity(row)).None?
  }

  /** The rows saved for the picked rows: those that are new. */
  function NewRows(table: seq<CustomerRow>, picks: seq<Columns>, tomorrow: Field): seq<CustomerRow> {
    if picks == [] then []
    else
      var before, row := NewRows(table, picks[..|picks| - 1], tomorrow), picks[|picks| - 1];
      if IsNew(table, row) then before + [Row(Stored(row, tomorrow), false)] else before
  }

  /** All five identity columns hold text; only then does a query for them find the row itself. */
  predicate Identified(row: Columns) {
    forall k | k in IDENTITY :: Get(row, k).Text?
  }

  lemma {:induction false} FindInConcat(a: seq<CustomerRow>, b: seq<CustomerRow>, where: Columns -> bool)
    ensures FindLive(a + b, where) == if FindLive(a, where).Some? then FindLive(a, where) else FindLive(b, where)
  {
    if a == [] {
      assert a + b == b;
    } else {
      assert (a + b)[1..] == a[1..] + b;
      FindInConcat(a[1..], b, where);
    }
  }

  lemma {:induction false} FindNone(rows: seq<CustomerRow>, where: Columns -> bool)
    ensures FindLive(rows, where).None? <==> forall r :: r in rows && !r.obsolete ==> !where(r.data)
  {
    if rows != [] {
      FindNone(rows[1..], where);
      assert forall r :: r in rows <==> r == rows[0] || r in rows[1..];
    }
  }

  lemma {:induction false} NewIsSaved(table: seq<CustomerRow>, picks: seq<Columns>, tomorrow: Field, row: Columns)
    requires row in picks && IsNew(table, row)
    ensures Row(Stored(row, tomorrow), false) in NewRows(table, picks, tomorrow)
  {
    if row != picks[|picks| - 1] {
      assert row in picks[..|picks| - 1];
      NewIsSaved(table, picks[..|picks| - 1], tomorrow, row);
    }
  }

  lemma IdentifiedFindsItself(row: Columns, tomorrow: Field)
    ensures Identified(row) ==> SameIdentity(row)(Stored(row, tomorrow))
    ensures !Identified(row) ==> forall r :: !SameIdentity(row)(r)
  {
    if Identified(row) {
      forall k | k in IDENTITY
        ensures Equals(Get(row, k), Get(Stored(row, tomorrow), k))
      {
      }
    } else {
      var k :| k in IDENTITY && !Get(row, k).Text?;
      assert forall r: Columns :: !Equals(Get(row, k), Get(r, k));
    }
  }

  /** After a run has saved its rows, a picked row is new again exactly when it was new and cannot be recognised. */
  lemma NewAgain(table: seq<CustomerRow>, picks: seq<Columns>, tomorrow: Field, row: Columns)
    requires row in picks
    ensures IsNew(table + NewRows(table, picks, tomorrow), row) <==> IsNew(table, row) && !Identified(row)
  {
    var saved, where := NewRows(table, picks, tomorrow), SameIdentity(row);
    FindInConcat(table, saved, where);
    FindNone(saved, where);
    IdentifiedFindsItself(row, tomorrow);
    if IsNew(table, row) {
      NewIsSaved(table, picks, tomorrow, row);
    }
  }

  lemma {:induction false} NothingNew(table: seq<CustomerRow>, picks: seq<Columns>, tomorrow: Field)
    ensures NewRows(table, picks, tomorrow) == [] <==> forall row :: row in picks ==> !IsNew(table, row)
  {
    if picks != [] {
      NothingNew(table, picks[..|picks| - 1], tomorrow);
      assert forall row :: row in picks <==> row == picks[|picks| - 1] || row in picks[..|picks| - 1];
    }
  }

  /**
   * Running bulkCustomerCreate twice on the same rows saves nothing the second time exactly when
   * every row saved the first time had all five identity columns, whatever the table held before.
   */
  lemma SecondCreateSavesNothing(table: seq<CustomerRow>, rows: seq<Columns>, tomorrow: Field, later: Field)
    ensures var picks := Picked(Create, rows, |rows|);
      NewRows(table + NewRows(table, picks, tomorrow), picks, later) == [] <==>
        forall row :: row in picks && IsNew(table, row) ==> Identified(row)
  {
    var picks := Picked(Create, rows, |rows|);
    NothingNew(table + NewRows(table, picks, tomorrow), picks, later);
    forall row | row in picks
      ensures IsNew(table + NewRows(table, picks, tomorrow), row) <==> IsNew(table, row) && !Identified(row)
    {
      NewAgain(table, picks, tomorrow, row);
    }
  }

  // ---------------------------------------------------------------------------------------
  // bulkCustomerSyncFile
  // ---------------------------------------------------------------------------------------

  /** Some column of the record is not what the row carries; a column the row lacks always differs. */
  predicate Differs(record: Columns, row: Columns) {
    exists k :: k in record && record[k] != Get(row, k)
  }

  /** The columns an update writes: those the row defines. */
  function Carried(row: Columns): Columns {
    map k | k in row && row[k] != Undefined :: row[k]
  }

  function OverlaidWith(row: Columns): Columns -> Columns {
    (r: Columns) => r + Carried(row)
  }

  function CodeOf(row: Columns): Field {
    Get(row, CustomerCode)
  }

  function Record(table: seq<CustomerRow>, code: Field): Option<Columns> {
    FindLive(table, WithCode(code))
  }

  /** The row has an active record, and that record differs from it. */
  predicate Updates(table: seq<CustomerRow>, row: Columns) {
    Record(table, CodeOf(row)).Some? && Differs(Record(table, CodeOf(row)).value, row)
  }

  /** The table after the picked rows. */
  function Synced(table: seq<CustomerRow>, picks: seq<Columns>): seq<CustomerRow> {
    if picks == [] then table
    else
      var t, row := Synced(table, picks[..|picks| - 1]), picks[|picks| - 1];
      if Updates(t, row) then UpdateAll(t, WithCode(CodeOf(row)), OverlaidWith(row)) else t
  }

  /** How many of the picked rows differ from their active record in one given table. */
  function Differing(table: seq<CustomerRow>, picks: seq<Columns>): nat {
    if picks == [] then 0
    else Differing(table, picks[..|picks| - 1]) + (if Updates(table, picks[|picks| - 1]) then 1 else 0)
  }

  ghost predicate CodesDistinct(picks: seq<Columns>) {
    forall i, j :: 0 <= i < j < |picks| ==> CodeOf(picks[i]) != CodeOf(picks[j])
  }

  lemma PickedCodesDistinct(rows: seq<Columns>, n: nat)
    requires n <= |rows|
    ensures CodesDistinct(Picked(Sync, rows, n))
  {
    hide Validate;
    var picks := Picked(Sync, rows, n);
    PickedValuesDistinct(Sync, rows, n);
    forall i, j | 0 <= i < j < |picks|
      ensures CodeOf(picks[i]) != CodeOf(picks[j])
    {
      assert Disjoint(Sync, picks[i], picks[j]);
      assert Checked(Sync, picks[i])[3] in Checked(Sync, picks[i]);
      assert Checked(Sync, picks[j])[3] in Checked(Sync, picks[j]);
    }
  }

  lemma {:induction false} FindAfterUpdate(table: seq<CustomerRow>, row: Columns, code: Field)
    ensures var after := UpdateAll(table, WithCode(CodeOf(row)), OverlaidWith(row));
      Record(after, code) == match Record(table, code)
        case None => None
        case Some(r) => Some(if code == CodeOf(row) then OverlaidWith(row)(r) else r)
  {
    if table != [] {
      FindAfterUpdate(table[1..], row, code);
      var after := UpdateAll(table, WithCode(CodeOf(row)), OverlaidWith(row));
      assert after[1..] == UpdateAll(table[1..], WithCode(CodeOf(row)), OverlaidWith(row));
    }
  }

  function Claims(table: seq<CustomerRow>, code: Field): Columns -> bool {
    (row: Columns) => Equals(CodeOf(row), code) && Updates(table, row)
  }

  /** The picked row that brings the records with a code up to date, if one does. */
  function Claimant(table: seq<CustomerRow>, picks: seq<Columns>, code: Field): Option<Columns> {
    First(picks, Claims(table, code))
  }

  /** The claimant of a code, when a row is appended whose code no earlier row had. */
  lemma ClaimantAppended(table: seq<CustomerRow>, picks: seq<Columns>, code: Field)
    requires picks != [] && CodesDistinct(picks)
    ensures var before, row := picks[..|picks| - 1], picks[|picks| - 1];
      && (Equals(CodeOf(row), code) ==> Claimant(table, before, code).None?)
      && Claimant(table, picks, code) ==
           (if Claims(table, code)(row) then Some(row) else Claimant(table, before, code))
      && (Claimant(table, before, code).Some? ==>
           CodeOf(Claimant(table, before, code).value) == code && Record(table, code).Some?)
  {
    var before, row := picks[..|picks| - 1], picks[|picks| - 1];
    assert picks == before + [row];
    FirstAfterAppend(before, row, Claims(table, code));
    FirstFound(before, Claims(table, code));
  }

  lemma RecordHasText(table: seq<CustomerRow>, code: Field)
    ensures Record(table, code).Some? ==> code.Text?
  {
    LiveFind(table, WithCode(code));
    FirstFound(Live(table), WithCode(code));
  }

  /** The active record of a code after the picked rows: overlaid with its claimant, if it has one. */
  lemma {:induction false} RecordAfterSync(table: seq<CustomerRow>, picks: seq<Columns>, code: Field)
    requires CodesDistinct(picks)
    decreases |picks|, 0
    ensures Claimant(table, picks, code).Some? ==> Record(table, code).Some?
    ensures Record(Synced(table, picks), code) == match Claimant(table, picks, code)
      case None => Record(table, code)
      case Some(row) => Some(OverlaidWith(row)(Record(table, code).value))
  {
    if picks != [] {
      var before, row := picks[..|picks| - 1], picks[|picks| - 1];
      RecordAfterSync(table, before, code);
      ClaimantAppended(table, picks, code);
      assert picks == before + [row];
      UpdatesAsBefore(table, before, row);
      FindAfterUpdate(Synced(table, before), row, code);
      RecordHasText(table, code);
    }
  }

  /** A row with a new code differs from its record during the run exactly when it did before the run. */
  lemma UpdatesAsBefore(table: seq<CustomerRow>, before: seq<Columns>, row: Columns)
    requires CodesDistinct(before + [row])
    ensures Updates(Synced(table, before), row) <==> Updates(table, row)
    decreases |before|, 1
  {
    var all := before + [row];
    assert forall i :: 0 <= i < |before| ==> before[i] == all[i];
    RecordAfterSync(table, before, CodeOf(row));
    FirstFound(before, Claims(table, CodeOf(row)));
    assert forall i :: 0 <= i < |before| ==> CodeOf(all[i]) != CodeOf(all[|before|]);
  }

  /**
   * What a run does to each record, active or obsolete: overlaid with the claimant of its code,
   * and left alone when there is none.
   */
  lemma {:induction false} SyncOnRecord(table: seq<CustomerRow>, picks: seq<Columns>, k: nat)
    requires CodesDistinct(picks) && k < |table|
    ensures |Synced(table, picks)| == |table|
    ensures Synced(table, picks)[k] == match Claimant(table, picks, CodeOf(table[k].data))
      case None => table[k]
      case Some(row) => Row(table[k].data + Carried(row), table[k].obsolete)
  {
    if picks != [] {
      var before, row := picks[..|picks| - 1], picks[|picks| - 1];
      SyncOnRecord(table, before, k);
      ClaimantAppended(table, picks, CodeOf(table[k].data));
      assert picks == before + [row];
      UpdatesAsBefore(table, before, row);
    }
  }

  lemma ClaimantIs(table: seq<CustomerRow>, picks: seq<Columns>, row: Columns)
    requires CodesDistinct(picks) && row in picks && Updates(table, row)
    ensures CodeOf(row).Text? && Claimant(table, picks, CodeOf(row)) == Some(row)
  {
    RecordHasText(table, CodeOf(row));
    FirstFound(picks, Claims(table, CodeOf(row)));
    assert Claims(table, CodeOf(row))(row);
    SameCodeSameRow(picks, row, Claimant(table, picks, CodeOf(row)).value);
  }

  lemma SameCodeSameRow(picks: seq<Columns>, r: Columns, q: Columns)
    requires CodesDistinct(picks) && r in picks && q in picks && CodeOf(r) == CodeOf(q)
    ensures r == q
  {
    var i :| 0 <= i < |picks| && picks[i] == r;
    var j :| 0 <= j < |picks| && picks[j] == q;
    if i < j || j < i {
      assert CodeOf(picks[i]) == CodeOf(picks[j]);
    }
  }

  /** Brought in again, a row updates its record only for a column it does not carry. */
  lemma UpdatesAgain(table: seq<CustomerRow>, picks: seq<Columns>, row: Columns)
    requires CodesDistinct(picks) && row in picks && InDatabase(table)
    ensures Updates(Synced(table, picks), row) <==>
      Updates(table, row) && !(Record(table, CodeOf(row)).value.Keys <= Carried(row).Keys)
  {
    var code := CodeOf(row);
    RecordAfterSync(table, picks, code);
    if Updates(table, row) {
      ClaimantIs(table, picks, row);
      FindLiveIn(table, WithCode(code));
      OverlaidDiffers(Record(table, code).value, row);
    } else if Claimant(table, picks, code).Some? {
      FirstFound(picks, Claims(table, code));
      SameCodeSameRow(picks, row, Claimant(table, picks, code).value);
    }
  }

  lemma {:induction false} FindLiveIn(table: seq<CustomerRow>, where: Columns -> bool)
    ensures FindLive(table, where).Some? ==> Row(FindLive(table, where).value, false) in table
  {
    if table != [] {
      FindLiveIn(table[1..], where);
    }
  }

  /** A stored column may be null, but never undefined. */
  ghost predicate InDatabase(table: seq<CustomerRow>) {
    forall r, k :: r in table && k in r.data ==> r.data[k] != Undefined
  }

  lemma OverlaidDiffers(record: Columns, row: Columns)
    requires forall k :: k in record ==> record[k] != Undefined
    ensures Differs(record + Carried(row), row) <==> !(record.Keys <= Carried(row).Keys)
  {
    var after := record + Carried(row);
    if !(record.Keys <= Carried(row).Keys) {
      var k :| k in record.Keys && k !in Carried(row);
      assert k in after && after[k] != Get(row, k);
    }
  }

  /** A second run with the same rows leaves the table as the first left it. */
  lemma {:induction false} SecondSyncChangesNothing(table: seq<CustomerRow>, picks: seq<Columns>, n: nat)
    requires CodesDistinct(picks) && InDatabase(table) && n <= |picks|
    ensures Synced(Synced(table, picks), picks[..n]) == Synced(table, picks)
  {
    var after := Synced(table, picks);
    if n > 0 {
      SecondSyncChangesNothing(table, picks, n - 1);
      assert picks[..n][..n - 1] == picks[..n - 1];
      var row := picks[n - 1];
      UpdatesAgain(table, picks, row);
      if Updates(after, row) {
        ClaimantIs(table, picks, row);
        var again := UpdateAll(after, WithCode(CodeOf(row)), OverlaidWith(row));
        forall k | 0 <= k < |after|
          ensures again[k] == after[k]
        {
          OverlaidOnce(table, picks, row, k);
        }
      }
    }
  }

  lemma OverlaidOnce(table: seq<CustomerRow>, picks: seq<Columns>, row: Columns, k: nat)
    requires CodesDistinct(picks) && row in picks && Updates(table, row)
    requires k < |Synced(table, picks)|
    ensures var r := Synced(table, picks)[k];
      WithCode(CodeOf(row))(r.data) ==> r.data + Carried(row) == r.data
  {
    if |table| == 0 {
      EmptySync(table, picks);
    } else {
      SyncOnRecord(table, picks, 0);
      SyncOnRecord(table, picks, k);
      ClaimantIs(table, picks, row);
      var code := CodeOf(table[k].data);
      FirstFound(picks, Claims(table, code));
    }
  }

  lemma {:induction false} EmptySync(table: seq<CustomerRow>, picks: seq<Columns>)
    requires table == []
    ensures Synced(table, picks) == []
  {
    if picks != [] {
      EmptySync(table, picks[..|picks| - 1]);
    }
  }

  lemma {:induction false} NothingDiffering(table: seq<CustomerRow>, picks: seq<Columns>)
    ensures Differing(table, picks) == 0 <==> forall row :: row in picks ==> !Updates(table, row)
  {
    if picks != [] {
      NothingDiffering(table, picks[..|picks| - 1]);
      assert forall row :: row in picks <==> row == picks[|picks| - 1] || row in picks[..|picks| - 1];
    }
  }

  /**
   * The second run changes nothing, but it reports no difference exactly when every row that updated
   * its record carried all of that record's columns.
   */
  lemma SecondSyncReportsNothing(table: seq<CustomerRow>, rows: seq<Columns>)
    requires InDatabase(table)
    ensures var picks := Picked(Sync, rows, |rows|);
      && Synced(Synced(table, picks), picks) == Synced(table, picks)
      && (Differing(Synced(table, picks), picks) == 0 <==>
           forall row :: row in picks && Updates(table, row) ==>
             Record(table, CodeOf(row)).value.Keys <= Carried(row).Keys)
  {
    hide Validate;
    var picks := Picked(Sync, rows, |rows|);
    PickedCodesDistinct(rows, |rows|);
    SecondSyncChangesNothing(table, picks, |picks|);
    assert picks[..|picks|] == picks;
    NothingDiffering(Synced(table, picks), picks);
    forall row | row in picks
      ensures Updates(Synced(table, picks), row) <==>
        Updates(table, row) && !(Record(table, CodeOf(row)).value.Keys <= Carried(row).Keys)
    {
      UpdatesAgain(table, picks, row);
    }
  }

  // ---------------------------------------------------------------------------------------
  // The Customer table.
  // ---------------------------------------------------------------------------------------

  datatype Outcome = Imported | Updated(count: nat) | Thrown

  predicate Throwing(rows: seq<Columns>, n: nat)
    requires n <= |rows|
  {
    exists i :: 0 <= i < n && Validate(rows[i]) == Throws
  }

  method HasNoDuplicate(arr: seq<Field>, val: Field) returns (result: bool)
    ensures result <==> val !in arr
  {
    result := true;
    for i := 0 to |arr|
      invariant result <==> val !in arr[..i]
    {
      if arr[i] == val {
        result := false;
      }
    }
    assert arr[..|arr|] == arr;
  }

  /** The list of examined values holds just the values the specification remembers. */
  ghost predicate Lists(arr: seq<Field>, seen: set<Field>) {
    forall v :: v in arr <==> v in seen
  }

  /** One row's values against the list: each is looked up, then pushed; the first repetition ends it. */
  method ExamineRow(arr: seq<Field>, vals: seq<Field>, ghost seen: set<Field>)
    returns (isFresh: bool, longer: seq<Field>)
    requires Lists(arr, seen)
    ensures isFresh == Examine(seen, vals).0 && Lists(longer, Examine(seen, vals).1)
  {
    isFresh, longer := true, arr;
    ghost var s := seen;
    for i := 0 to |vals|
      invariant isFresh && Lists(longer, s)
      invariant Examine(seen, vals) == Examine(s, vals[i..])
    {
      var duplicate := HasNoDuplicate(longer, vals[i]);
      longer := longer + [vals[i]];
      assert vals[i..][0] == vals[i] && vals[i..][1..] == vals[i + 1..];
      if !duplicate {
        isFresh := false;
        return;
      }
      s := s + {vals[i]};
    }
  }

  class CustomerTable {
    var table: seq<CustomerRow>

    /** All rows are collected first and saved together; a row that throws leaves the table as it was. */
    method BulkCustomerCreate(rows: seq<Columns>, tomorrow: Field) returns (o: Outcome)
      modifies this
      ensures o == if Throwing(rows, |rows|) then Thrown else Imported
      ensures table == old(table) +
        if Throwing(rows, |rows|) then [] else NewRows(old(table), Picked(Create, rows, |rows|), tomorrow)
    {
      hide Validate;
      var arr: seq<Field>, customers: seq<CustomerRow> := [], [];
      for i := 0 to |rows|
        invariant table == old(table) && !Throwing(rows, i)
        invariant Lists(arr, Seen(Create, rows, i))
        invariant customers == NewRows(table, Picked(Create, rows, i), tomorrow)
      {
        var verdict := Validate(rows[i]);
        if verdict == Throws {
          return Thrown;
        }
        if verdict == Invalid {
          continue;
        }
        var isFresh: bool;
        isFresh, arr := ExamineRow(arr, Checked(Create, rows[i]), Seen(Create, rows, i));
        if !isFresh {
          continue;
        }
        assert Picked(Create, rows, i + 1)[..|Picked(Create, rows, i)|] == Picked(Create, rows, i);
        var duplicateCustomer := FindLive(table, SameIdentity(rows[i]));
        if duplicateCustomer.Some? {
          continue;
        }
        customers := customers + [Row(Stored(rows[i], tomorrow), false)];
      }
      table := table + customers;
      o := Imported;
    }

    /** One fresh row: its record is looked up, compared column by column, and overwritten if it differs. */
    method SyncRow(ghost start: seq<CustomerRow>, ghost before: seq<Columns>, row: Columns) returns (difference: bool)
      requires table == Synced(start, before) && CodesDistinct(before + [row])
      modifies this
      ensures table == Synced(start, before + [row])
      ensures Differing(start, before + [row]) == Differing(start, before) + if difference then 1 else 0
    {
      assert (before + [row])[..|before|] == before;
      UpdatesAsBefore(start, before, row);
      var code := CodeOf(row);
      var customerFound := FindLive(table, WithCode(code));
      difference := false;
      if customerFound.Some? {
        var record := customerFound.value;
        difference := exists k | k in record.Keys :: record[k] != Get(row, k);
        if difference {
          table := UpdateAll(table, WithCode(code), OverlaidWith(row));
        }
      }
    }

    /** Rows are written one by one; a row that throws leaves the rows before it written. */
    method BulkCustomerSyncFile(rows: seq<Columns>) returns (o: Outcome, ghost done: nat)
      modifies this
      ensures done <= |rows| && !Throwing(rows, done)
      ensures table == Synced(old(table), Picked(Sync, rows, done))
      ensures if Throwing(rows, |rows|) then o == Thrown && done < |rows| && Validate(rows[done]) == Throws
              else done == |rows| && o == Updated(Differing(old(table), Picked(Sync, rows, done)))
    {
      hide Validate;
      var arr: seq<Field>, count: nat := [], 0;
      for i := 0 to |rows|
        invariant !Throwing(rows, i)
        invariant Lists(arr, Seen(Sync, rows, i))
        invariant table == Synced(old(table), Picked(Sync, rows, i))
        invariant count == Differing(old(table), Picked(Sync, rows, i))
      {
        done := i;
        var verdict := Validate(rows[i]);
        if verdict == Throws {
          return Thrown, i;
        }
        if verdict == Invalid {
          continue;
        }
        var isFresh: bool;
        isFresh, arr := ExamineRow(arr, Checked(Sync, rows[i]), Seen(Sync, rows, i));
        if !isFresh {
          continue;
        }
        ghost var before := Picked(Sync, rows, i);
        assert Picked(Sync, rows, i + 1) == before + [rows[i]];
        PickedCodesDistinct(rows, i + 1);
        var difference := SyncRow(old(table), before, rows[i]);
        if difference {
          count := count + 1;
        }
      }
      o, done := Updated(count), |rows|;
    }
  }
}
