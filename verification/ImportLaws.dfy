/** What a bulk run accepts, saves and overwrites, column by column. */
module ImportLaws {
  import opened Tables
  import opened ImportRows
  import opened BulkImport

  // ---------------------------------------------------------------------------------------
  // Valid rows.
  // ---------------------------------------------------------------------------------------

  predicate IsName(f: Field) {
    f.Text? && 3 <= |f.s| <= 30
  }

  /** Which rows pass validation, and which make it throw: those whose first, or next their last, name is no text. */
  lemma ValidExactly(row: Columns)
    ensures Validate(row) == Valid <==>
      && IsName(Get(row, FirstName)) && IsName(Get(row, LastName))
      && Get(row, Gender).Text? && Get(row, Gender).s in {"MALE", "FEMALE", "NOT SPECIFIED", "THIRD GENDER"}
      && Get(row, Email).Text? && EmailShape(Get(row, Email).s)
      && Get(row, MobileNumber).Text? && |Get(row, MobileNumber).s| == 10
      && Get(row, CustomerCode) != Text("")
      && (Get(row, Panno).Text? ==> |Get(row, Panno).s| == 10)
    ensures Validate(row) == Throws <==>
      !Get(row, FirstName).Text? || (IsName(Get(row, FirstName)) && !Get(row, LastName).Text?)
  {
    hide EmailShape;
    if EmailShape(AsText(Get(row, Email))) {
      var _ := OneAt(AsText(Get(row, Email)));
    }
  }

  /** An accepted address has one @, with something in front of it and a dot somewhere behind it. */
  lemma OneAt(s: string) returns (at: nat)
    requires EmailShape(s)
    ensures 0 < at < |s| && s[at] == '@' && forall i :: 0 <= i < |s| && s[i] == '@' ==> i == at
    ensures exists d :: at < d < |s| && s[d] == '.'
  {
    at :| 0 < at < |s| && s[at] == '@' && LocalPart(s[..at]) && Domain(s[at + 1..]);
    var local, d := s[..at], s[at + 1..];
    NoAtInLocal(local);
    var k := NoAtInDomain(d);
    hide LocalPart, Domain, EmailShape;
    assert s[at + k] == d[k - 1];
    forall i | 0 <= i < |s| && i != at
      ensures s[i] != '@'
    {
      if i < at {
        assert s[i] == local[i];
      } else {
        assert s[i] == d[i - at - 1];
      }
    }
  }

  lemma NoAtInLocal(s: string)
    requires LocalPart(s)
    ensures forall i :: 0 <= i < |s| ==> s[i] != '@'
  {
    assert '@' !in "_-.";
  }

  lemma NoAtInDomain(d: string) returns (k: nat)
    requires Domain(d)
    ensures forall i :: 0 <= i < |d| ==> d[i] != '@'
    ensures 0 < k < |d| && d[k - 1] == '.'
  {
    k :| 0 < k < |d| && (Labels(d[..k]) || BracketedAddress(d[..k])) && TopLevel(d[k..]);
    var front, back := d[..k], d[k..];
    NoAtInFront(front);
    NoAtInBack(back);
    hide Labels, BracketedAddress, TopLevel, Domain;
    assert front[k - 1] == d[k - 1];
    forall i | 0 <= i < |d|
      ensures d[i] != '@'
    {
      assert d[i] == if i < k then front[i] else back[i - k];
    }
  }

  lemma NoAtInFront(front: string)
    requires Labels(front) || BracketedAddress(front)
    ensures front != "" && front[|front| - 1] == '.' && forall i :: 0 <= i < |front| ==> front[i] != '@'
  {
    if Labels(front) {
      NoAtInLabels(front);
    } else {
      NoAtInBrackets(front);
    }
    hide Labels, BracketedAddress;
  }

  lemma NoAtInLabels(front: string)
    requires Labels(front)
    ensures front != "" && front[|front| - 1] == '.' && forall i :: 0 <= i < |front| ==> front[i] != '@'
  {
    assert '@' !in "-.";
  }

  lemma NoAtInBrackets(front: string)
    requires BracketedAddress(front)
    ensures front != "" && front[|front| - 1] == '.' && forall i :: 0 <= i < |front| ==> front[i] != '@'
  {
    var a, b :| 0 < a < b < |front| - 1
      && front[0] == '[' && front[a] == '.' && front[b] == '.' && front[|front| - 1] == '.'
      && Digits(front[1..a], 1, 3) && Digits(front[a + 1..b], 1, 3) && Digits(front[b + 1..|front| - 1], 1, 3);
    NoAtBetween(front, a, b);
  }

  lemma NoAtBetween(front: string, a: nat, b: nat)
    requires 0 < a < b < |front| - 1
    requires front[0] == '[' && front[a] == '.' && front[b] == '.' && front[|front| - 1] == '.'
    requires Digits(front[1..a], 1, 3) && Digits(front[a + 1..b], 1, 3) && Digits(front[b + 1..|front| - 1], 1, 3)
    ensures forall i :: 0 <= i < |front| ==> front[i] != '@'
  {
    hide Digits;
    NoAtInDigits(front, 1, a);
    NoAtInDigits(front, a + 1, b);
    NoAtInDigits(front, b + 1, |front| - 1);
  }

  lemma NoAtInDigits(s: string, a: nat, b: nat)
    requires a <= b <= |s| && Digits(s[a..b], 1, 3)
    ensures forall i :: a <= i < b ==> s[i] != '@'
  {
    forall i | a <= i < b
      ensures s[i] != '@'
    {
      assert s[i] == s[a..b][i - a];
    }
  }

  lemma NoAtInBack(back: string)
    requires TopLevel(back)
    ensures forall i :: 0 <= i < |back| ==> back[i] != '@'
  {
    var t := if back != "" && back[|back| - 1] == ']' then back[..|back| - 1] else back;
    assert forall i :: 0 <= i < |t| ==> IsDigit(t[i]) || IsLetter(t[i]);
    forall i | 0 <= i < |back|
      ensures back[i] != '@'
    {
      if i < |t| {
        assert t[i] == back[i];
      } else {
        assert i == |back| - 1 && back[i] == ']';
      }
    }
  }

  // ---------------------------------------------------------------------------------------
  // The columns kept distinct.
  // ---------------------------------------------------------------------------------------

  predicate AllDifferent(a: Field, b: Field, c: Field, d: Field) {
    a != b && a != c && a != d && b != c && b != d && c != d
  }

  predicate CreateApart(r: Columns) {
    AllDifferent(Get(r, Email), Get(r, MobileNumber), Get(r, CustomerCode), Get(r, Panno))
  }

  predicate SyncApart(r: Columns) {
    AllDifferent(Get(r, Email), Get(r, MobileNumber), Get(r, CustomerCode), Get(r, IdNo))
  }

  function CreateValues(r: Columns): set<Field> {
    {Get(r, Email), Get(r, MobileNumber), Get(r, CustomerCode), Get(r, Panno)}
  }

  function SyncValues(r: Columns): set<Field> {
    {Get(r, Email), Get(r, MobileNumber), Get(r, CustomerCode), Get(r, IdNo)}
  }

  lemma CheckedAre(r: Columns)
    ensures forall v :: v in Checked(Create, r) <==> v in CreateValues(r)
    ensures forall v :: v in Checked(Sync, r) <==> v in SyncValues(r)
    ensures CreateApart(r) <==> Apart(Create, r)
    ensures SyncApart(r) <==> Apart(Sync, r)
  {
    var c, s := Checked(Create, r), Checked(Sync, r);
    assert c[0] in c && c[1] in c && c[2] in c && c[3] in c;
    assert s[0] in s && s[1] in s && s[2] in s && s[3] in s;
    if Apart(Create, r) {
      assert c[0] != c[1] && c[0] != c[2] && c[0] != c[3] && c[1] != c[2] && c[1] != c[3] && c[2] != c[3];
    }
    if Apart(Sync, r) {
      assert s[0] != s[1] && s[0] != s[2] && s[0] != s[3] && s[1] != s[2] && s[1] != s[3] && s[2] != s[3];
    }
  }

  /**
   * The e-mail addresses, mobile numbers, customer codes and PANs of the rows a creation run picks are all
   * different, within a row and across rows and columns; an update run has id numbers in place of PANs.
   */
  lemma PickedColumnsDistinct(rows: seq<Columns>)
    ensures var picks := Picked(Create, rows, |rows|);
      && (forall i :: 0 <= i < |picks| ==> Validate(picks[i]) == Valid && CreateApart(picks[i]))
      && (forall i, j :: 0 <= i < j < |picks| ==> CreateValues(picks[i]) !! CreateValues(picks[j]))
    ensures var picks := Picked(Sync, rows, |rows|);
      && (forall i :: 0 <= i < |picks| ==> Validate(picks[i]) == Valid && SyncApart(picks[i]))
      && (forall i, j :: 0 <= i < j < |picks| ==> SyncValues(picks[i]) !! SyncValues(picks[j]))
  {
    hide Validate, Checked, CreateApart, SyncApart, CreateValues, SyncValues, Apart, Picked;
    PickedValuesDistinct(Create, rows, |rows|);
    PickedValuesDistinct(Sync, rows, |rows|);
    forall r {
      CheckedAre(r);
    }
    var picks, others := Picked(Create, rows, |rows|), Picked(Sync, rows, |rows|);
    forall i, j | 0 <= i < j < |picks|
      ensures CreateValues(picks[i]) !! CreateValues(picks[j])
    {
      assert Disjoint(Create, picks[i], picks[j]);
    }
    forall i, j | 0 <= i < j < |others|
      ensures SyncValues(others[i]) !! SyncValues(others[j])
    {
      assert Disjoint(Sync, others[i], others[j]);
    }
  }

  lemma {:induction false} SeenIsOfValidRows(job: Job, rows: seq<Columns>, n: nat, v: Field)
    requires n <= |rows| && v in Seen(job, rows, n)
    ensures exists m :: 0 <= m < n && Validate(rows[m]) == Valid && v in Checked(job, rows[m])
  {
    hide Validate, Checked;
    if v !in Seen(job, rows, n - 1) {
      ExamineExact(Seen(job, rows, n - 1), Checked(job, rows[n - 1]));
    } else {
      SeenIsOfValidRows(job, rows, n - 1, v);
    }
  }

  lemma NewIsFresh(job: Job, rows: seq<Columns>, k: nat)
    requires k < |rows| && Validate(rows[k]) == Valid && Apart(job, rows[k])
    requires forall m :: 0 <= m < k && Validate(rows[m]) == Valid ==> Disjoint(job, rows[m], rows[k])
    ensures Fresh(job, rows, k)
  {
    hide Validate;
    FreshExact(job, rows, k);
    forall v | v in Checked(job, rows[k])
      ensures v !in Seen(job, rows, k)
    {
      if v in Seen(job, rows, k) {
        SeenIsOfValidRows(job, rows, k, v);
      }
    }
  }

  lemma {:induction false} FreshIsPicked(job: Job, rows: seq<Columns>, n: nat, k: nat)
    requires k < n <= |rows| && Fresh(job, rows, k)
    ensures rows[k] in Picked(job, rows, n)
  {
    hide Fresh;
    if k < n - 1 {
      FreshIsPicked(job, rows, n - 1, k);
    }
  }

  /** A valid row with four different values, none of which an earlier valid row has, is picked. */
  lemma NewColumnsArePicked(rows: seq<Columns>, k: nat)
    requires k < |rows| && Validate(rows[k]) == Valid
    ensures CreateApart(rows[k])
      && (forall m :: 0 <= m < k && Validate(rows[m]) == Valid ==> CreateValues(rows[m]) !! CreateValues(rows[k]))
      ==> rows[k] in Picked(Create, rows, |rows|)
    ensures SyncApart(rows[k])
      && (forall m :: 0 <= m < k && Validate(rows[m]) == Valid ==> SyncValues(rows[m]) !! SyncValues(rows[k]))
      ==> rows[k] in Picked(Sync, rows, |rows|)
  {
    hide Validate, Checked, CreateApart, SyncApart, CreateValues, SyncValues, Apart, Picked, Fresh;
    forall r {
      CheckedAre(r);
    }
    if CreateApart(rows[k])
      && forall m :: 0 <= m < k && Validate(rows[m]) == Valid ==> CreateValues(rows[m]) !! CreateValues(rows[k])
    {
      NewIsFresh(Create, rows, k);
      FreshIsPicked(Create, rows, |rows|, k);
    }
    if SyncApart(rows[k])
      && forall m :: 0 <= m < k && Validate(rows[m]) == Valid ==> SyncValues(rows[m]) !! SyncValues(rows[k])
    {
      NewIsFresh(Sync, rows, k);
      FreshIsPicked(Sync, rows, |rows|, k);
    }
  }

  // ---------------------------------------------------------------------------------------
  // What a creation run saves.
  // ---------------------------------------------------------------------------------------

  predicate SameText(a: Field, b: Field) {
    a.Text? && a == b
  }

  /** An active record has the row's e-mail, id number, mobile number, customer code and PAN. */
  ghost predicate Present(table: seq<CustomerRow>, row: Columns) {
    exists r :: r in table && !r.obsolete
      && SameText(Get(row, Email), Get(r.data, Email)) && SameText(Get(row, IdNo), Get(r.data, IdNo))
      && SameText(Get(row, MobileNumber), Get(r.data, MobileNumber))
      && SameText(Get(row, CustomerCode), Get(r.data, CustomerCode)) && SameText(Get(row, Panno), Get(r.data, Panno))
  }

  lemma NewExactly(table: seq<CustomerRow>, row: Columns)
    ensures IsNew(table, row) <==> !Present(table, row)
  {
    FindNone(table, SameIdentity(row));
    forall r: CustomerRow
      ensures SameIdentity(row)(r.data) <==>
        && SameText(Get(row, Email), Get(r.data, Email)) && SameText(Get(row, IdNo), Get(r.data, IdNo))
        && SameText(Get(row, MobileNumber), Get(r.data, MobileNumber))
        && SameText(Get(row, CustomerCode), Get(r.data, CustomerCode)) && SameText(Get(row, Panno), Get(r.data, Panno))
    {
      assert IDENTITY[0] == Email && IDENTITY[1] == IdNo && IDENTITY[2] == MobileNumber;
      assert IDENTITY[3] == CustomerCode && IDENTITY[4] == Panno;
    }
  }

  /** The row as it was given, but for the notification time, and with null for what it leaves undefined. */
  ghost predicate SavedAs(row: Columns, saved: CustomerRow, tomorrow: Field) {
    && !saved.obsolete
    && saved.data.Keys == row.Keys + {Other("notification_time")}
    && (forall k :: k in saved.data ==>
          saved.data[k] ==
            if k == Other("notification_time") then tomorrow
            else if Get(row, k) == Undefined then Null
            else Get(row, k))
  }

  /** A creation run saves, in order, the fresh rows no active record has all five identity columns of. */
  lemma {:induction false} CreateSaves(table: seq<CustomerRow>, rows: seq<Columns>, n: nat, tomorrow: Field)
    returns (at: seq<nat>)
    requires n <= |rows|
    ensures var saved := NewRows(table, Picked(Create, rows, n), tomorrow);
      && |at| == |saved|
      && (forall i :: 0 <= i < |at| ==> at[i] < n && SavedAs(rows[at[i]], saved[i], tomorrow))
    ensures forall i, j :: 0 <= i < j < |at| ==> at[i] < at[j]
    ensures forall k: nat :: k < n ==> (k in at <==> Fresh(Create, rows, k) && !Present(table, rows[k]))
  {
    hide Fresh, IsNew, Present;
    at := [];
    if n > 0 {
      at := CreateSaves(table, rows, n - 1, tomorrow);
      NewExactly(table, rows[n - 1]);
      var before, picks := Picked(Create, rows, n - 1), Picked(Create, rows, n);
      if Fresh(Create, rows, n - 1) {
        assert picks[..|picks| - 1] == before;
        if IsNew(table, rows[n - 1]) {
          at := at + [n - 1];
        }
      }
    }
  }

  // ---------------------------------------------------------------------------------------
  // What an update run overwrites.
  // ---------------------------------------------------------------------------------------

  /** table[i] is the first active record with the customer code. */
  ghost predicate FirstWithCode(table: seq<CustomerRow>, code: Field, i: nat) {
    && i < |table| && !table[i].obsolete && SameText(code, Get(table[i].data, CustomerCode))
    && forall j :: 0 <= j < i && !table[j].obsolete ==> !SameText(code, Get(table[j].data, CustomerCode))
  }

  /** The first active record with the row's customer code has a column that is not as in the row. */
  ghost predicate RecordDiffers(table: seq<CustomerRow>, row: Columns) {
    exists i: nat :: FirstWithCode(table, Get(row, CustomerCode), i)
      && exists k :: k in table[i].data && table[i].data[k] != Get(row, k)
  }

  lemma {:induction false} RecordIsFirst(table: seq<CustomerRow>, code: Field) returns (i: nat)
    ensures forall j: nat :: FirstWithCode(table, code, j) ==> Record(table, code) == Some(table[j].data)
    ensures Record(table, code).Some? ==> FirstWithCode(table, code, i)
  {
    i := 0;
    if table != [] {
      i := RecordIsFirst(table[1..], code);
      if !table[0].obsolete && SameText(code, Get(table[0].data, CustomerCode)) {
        i := 0;
        forall j: nat | FirstWithCode(table, code, j)
          ensures j == 0
        {
        }
      } else {
        i := i + 1;
        forall j: nat | FirstWithCode(table, code, j)
          ensures j > 0 && FirstWithCode(table[1..], code, j - 1)
        {
          assert forall m :: 0 <= m < j - 1 ==> table[1..][m] == table[m + 1];
        }
      }
    }
  }

  lemma UpdatesExactly(table: seq<CustomerRow>, row: Columns)
    ensures Updates(table, row) <==> RecordDiffers(table, row)
  {
    var i := RecordIsFirst(table, Get(row, CustomerCode));
  }

  /**
   * A record whose customer code a picked row has ends, if that code's first active record differed from
   * the row before the run, with the row's value in every column the row defines and its own in the others.
   * Any other record is left alone.
   */
  lemma SyncOverwrites(table: seq<CustomerRow>, rows: seq<Columns>, n: nat, k: nat)
    requires n <= |rows| && k < |table|
    ensures var picks, after := Picked(Sync, rows, n), Synced(table, Picked(Sync, rows, n));
      && |after| == |table| && after[k].obsolete == table[k].obsolete
      && (forall p :: p in picks && SameText(Get(p, CustomerCode), Get(table[k].data, CustomerCode))
                      && RecordDiffers(table, p) ==>
            forall c :: Get(after[k].data, c) == if Get(p, c) != Undefined then Get(p, c) else Get(table[k].data, c))
      && ((forall p :: p in picks && SameText(Get(p, CustomerCode), Get(table[k].data, CustomerCode)) ==>
            !RecordDiffers(table, p)) ==> after[k] == table[k])
  {
    hide Picked, Updates, RecordDiffers, Validate;
    var picks, code := Picked(Sync, rows, n), Get(table[k].data, CustomerCode);
    PickedCodesDistinct(rows, n);
    SyncOnRecord(table, picks, k);
    forall p {
      UpdatesExactly(table, p);
    }
    FirstFound(picks, Claims(table, code));
    forall p | p in picks && SameText(Get(p, CustomerCode), code) && RecordDiffers(table, p)
      ensures Claimant(table, picks, code) == Some(p)
    {
      ClaimantIs(table, picks, p);
    }
  }

  /** The count reported is the number of picked rows whose record differed before the run. */
  lemma {:induction false} SyncCounts(table: seq<CustomerRow>, picks: seq<Columns>)
    ensures Differing(table, picks) == |set i | 0 <= i < |picks| && RecordDiffers(table, picks[i])|
  {
    hide RecordDiffers, Updates;
    var all := set i | 0 <= i < |picks| && RecordDiffers(table, picks[i]);
    if picks == [] {
      assert all == {};
    } else {
      var n := |picks| - 1;
      SyncCounts(table, picks[..n]);
      UpdatesExactly(table, picks[n]);
      var before := set i | 0 <= i < n && RecordDiffers(table, picks[..n][i]);
      assert all == if RecordDiffers(table, picks[n]) then before + {n} else before;
    }
  }
}
