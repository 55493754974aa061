/** Merging the reference rows of many customers into their profiles, in whatever order the rows come. */
module ReferenceMerge {
  import opened Tables

  type Cif = string

  /** A column of the References view. */
  datatype ViewColumn =
    | ApplicationNumber | ReferenceName | MobileNumber | FlatPlotNumber | ResidentStatus | AddressLine2
    | RefAddressLine3 | PinCode | RefState | ReferenceRelationship | AddressTypeReference | AddressTypeCode
    | ResidentStatusCode | CityCode | StateCode

  /** A profile column: reference_*, reference2_*, or one that is neither. */
  datatype Column = Reference(name: string) | Reference2(name: string) | Plain(name: string)

  /** The column the mapping sends a view column to, if any; both state columns go to the same one. */
  function Mapping(v: ViewColumn): Option<Column> {
    match v
    case ApplicationNumber => None
    case ReferenceName => Some(Reference("name"))
    case MobileNumber => Some(Reference("mobile_number"))
    case FlatPlotNumber => Some(Reference("address"))
    case ResidentStatus => Some(Reference("resident_status"))
    case AddressLine2 => Some(Plain("address_line2"))
    case RefAddressLine3 => Some(Reference("landmark"))
    case PinCode => Some(Reference("pincode"))
    case RefState => Some(Reference("state"))
    case ReferenceRelationship => Some(Reference("relationship"))
    case AddressTypeReference => Some(Reference("address_type"))
    case AddressTypeCode => Some(Reference("address_type_code"))
    case ResidentStatusCode => Some(Reference("resident_status_code"))
    case CityCode => Some(Reference("city_code"))
    case StateCode => Some(Reference("state"))
  }

  /** A later row writes reference2_* columns where the first row writes reference_* ones. */
  function Second(c: Column): Column {
    match c
    case Reference(name) => Reference2(name)
    case _ => c
  }

  type Profile = map<Column, string>

  /** A row's values in the order of its properties. */
  type ViewRow = seq<(ViewColumn, string)>

  function ValueOf(row: ViewRow, v: ViewColumn): string {
    if row == [] then "" else if row[0].0 == v then row[0].1 else ValueOf(row[1..], v)
  }

  /** The second address line is appended to the plot number before the row is merged. */
  function Prepared(row: ViewRow): ViewRow {
    seq(|row|, i requires 0 <= i < |row| =>
      if row[i].0 == FlatPlotNumber && row[i].1 != "" then (FlatPlotNumber, row[i].1 + ValueOf(row, AddressLine2))
      else row[i])
  }

  function Store(p: Profile, target: Option<Column>, x: string): Profile {
    match target
    case None => p
    case Some(c) => p[c := x]
  }

  function SecondTarget(v: ViewColumn): Option<Column> {
    match Mapping(v)
    case None => None
    case Some(c) => Some(Second(c))
  }

  function Columns(row: ViewRow): Profile {
    if row == [] then map[]
    else Store(Columns(row[..|row| - 1]), Mapping(row[|row| - 1].0), row[|row| - 1].1)
  }

  /** What the row stores when it is not its customer's first. */
  function SecondColumns(row: ViewRow): Profile {
    if row == [] then map[]
    else Store(SecondColumns(row[..|row| - 1]), SecondTarget(row[|row| - 1].0), row[|row| - 1].1)
  }

  /** One customer's rows merged into its profile: the first as it is, the later ones as second references. */
  function Merged(p: Profile, rows: seq<ViewRow>): Profile {
    if rows == [] then p
    else
      var last := Prepared(rows[|rows| - 1]);
      if |rows| == 1 then p + Columns(last)
      else Merged(p, rows[..|rows| - 1]) + SecondColumns(last)
  }

  lemma {:induction false} SecondColumnsRename(row: ViewRow)
    ensures forall name :: Reference(name) !in SecondColumns(row)
    ensures forall name :: Reference2(name) !in Columns(row)
    ensures forall name :: Reference2(name) in SecondColumns(row) <==> Reference(name) in Columns(row)
    ensures forall name :: Reference(name) in Columns(row) ==>
      SecondColumns(row)[Reference2(name)] == Columns(row)[Reference(name)]
    ensures forall name :: Plain(name) in SecondColumns(row) <==> Plain(name) in Columns(row)
    ensures forall name :: Plain(name) in Columns(row) ==> SecondColumns(row)[Plain(name)] == Columns(row)[Plain(name)]
  {
    if row != [] {
      SecondColumnsRename(row[..|row| - 1]);
      NoSecondTarget(row[|row| - 1].0);
      hide Mapping;
    }
  }

  lemma NoSecondTarget(v: ViewColumn)
    ensures Mapping(v).Some? ==> !Mapping(v).value.Reference2?
  {
  }

  predicate SameAt(p: Profile, q: Profile, c: Column) {
    (c in p <==> c in q) && (c in p ==> p[c] == q[c])
  }

  /** However many rows follow, a customer's reference_* columns are those its first row left. */
  lemma {:induction false} FirstReferenceKept(p: Profile, rows: seq<ViewRow>, name: string)
    requires rows != []
    ensures SameAt(Merged(p, rows), Merged(p, rows[..1]), Reference(name))
  {
    if |rows| == 1 {
      assert rows[..1] == rows;
    } else {
      var before := rows[..|rows| - 1];
      FirstReferenceKept(p, before, name);
      assert before[..1] == rows[..1];
      SecondColumnsRename(Prepared(rows[|rows| - 1]));
    }
  }

  /** k is the last later row that carries the column. */
  ghost predicate LastCarrying(rows: seq<ViewRow>, k: nat, c: Column) {
    && 0 < k < |rows| && c in Columns(Prepared(rows[k]))
    && forall m :: k < m < |rows| ==> c !in Columns(Prepared(rows[m]))
  }

  /** A reference2_* column is that of the last later row carrying it. */
  lemma {:induction false} SecondReferenceIsLast(p: Profile, rows: seq<ViewRow>, name: string, k: nat)
    requires LastCarrying(rows, k, Reference(name))
    ensures Reference2(name) in Merged(p, rows)
    ensures Merged(p, rows)[Reference2(name)] == Columns(Prepared(rows[k]))[Reference(name)]
  {
    SecondColumnsRename(Prepared(rows[|rows| - 1]));
    if k < |rows| - 1 {
      SecondReferenceIsLast(p, rows[..|rows| - 1], name, k);
    }
  }

  /** A reference2_* column that no later row carries is left as it was. */
  lemma {:induction false} SecondReferenceUntouched(p: Profile, rows: seq<ViewRow>, name: string)
    requires forall m :: 0 < m < |rows| ==> Reference(name) !in Columns(Prepared(rows[m]))
    ensures SameAt(Merged(p, rows), p, Reference2(name))
  {
    if rows != [] {
      SecondColumnsRename(Prepared(rows[|rows| - 1]));
      if |rows| > 1 {
        SecondReferenceUntouched(p, rows[..|rows| - 1], name);
      }
    }
  }

  /** A column that is not a reference column is not kept: the last row carrying it wins, the first included. */
  lemma {:induction false} PlainColumnOverwritten(p: Profile, rows: seq<ViewRow>, name: string, k: nat)
    requires k < |rows| && Plain(name) in Columns(Prepared(rows[k]))
    requires forall m :: k < m < |rows| ==> Plain(name) !in Columns(Prepared(rows[m]))
    ensures Plain(name) in Merged(p, rows)
    ensures Merged(p, rows)[Plain(name)] == Columns(Prepared(rows[k]))[Plain(name)]
  {
    SecondColumnsRename(Prepared(rows[|rows| - 1]));
    if k < |rows| - 1 {
      PlainColumnOverwritten(p, rows[..|rows| - 1], name, k);
    }
  }

  // ---------------------------------------------------------------------------------------
  // The columns by their names.
  // ---------------------------------------------------------------------------------------

  /** An object has each property once. */
  predicate EachOnce(row: ViewRow) {
    forall i, j :: 0 <= i < j < |row| ==> row[i].0 != row[j].0
  }

  lemma {:induction false} LastStored(row: ViewRow, k: nat, c: Column)
    requires k < |row| && Mapping(row[k].0) == Some(c)
    requires forall m :: k < m < |row| ==> Mapping(row[m].0) != Some(c)
    ensures c in Columns(row) && Columns(row)[c] == row[k].1
  {
    hide Mapping;
    if k < |row| - 1 {
      LastStored(row[..|row| - 1], k, c);
    }
  }

  lemma MappedApart(v: ViewColumn, w: ViewColumn)
    requires v != w && Mapping(v).Some? && Mapping(v) == Mapping(w)
    ensures (v == RefState && w == StateCode) || (v == StateCode && w == RefState)
  {
  }

  predicate Holds(p: Profile, c: Column, x: string) {
    c in p && p[c] == x
  }

  /** A row's values under their new names; of the two state columns the later one counts. */
  lemma ColumnNames(row: ViewRow, k: nat)
    requires k < |row| && EachOnce(row)
    ensures var (v, x, p) := (row[k].0, row[k].1, Columns(row));
      && (v == ReferenceName ==> Holds(p, Reference("name"), x))
      && (v == MobileNumber ==> Holds(p, Reference("mobile_number"), x))
      && (v == FlatPlotNumber ==> Holds(p, Reference("address"), x))
      && (v == ResidentStatus ==> Holds(p, Reference("resident_status"), x))
      && (v == AddressLine2 ==> Holds(p, Plain("address_line2"), x))
      && (v == RefAddressLine3 ==> Holds(p, Reference("landmark"), x))
      && (v == PinCode ==> Holds(p, Reference("pincode"), x))
      && (v == ReferenceRelationship ==> Holds(p, Reference("relationship"), x))
      && (v == AddressTypeReference ==> Holds(p, Reference("address_type"), x))
      && (v == AddressTypeCode ==> Holds(p, Reference("address_type_code"), x))
      && (v == ResidentStatusCode ==> Holds(p, Reference("resident_status_code"), x))
      && (v == CityCode ==> Holds(p, Reference("city_code"), x))
      && (v == RefState || v == StateCode ==>
            (forall m :: k < m < |row| ==> row[m].0 != RefState && row[m].0 != StateCode) ==>
              Holds(p, Reference("state"), x))
  {
    var v := row[k].0;
    if Mapping(v).Some? {
      if forall m :: k < m < |row| ==> Mapping(row[m].0) != Mapping(v) {
        LastStored(row, k, Mapping(v).value);
      } else {
        var m :| k < m < |row| && Mapping(row[m].0) == Mapping(v);
        MappedApart(v, row[m].0);
      }
    }
  }

  /** No other column comes out of a row, and the application number is not stored. */
  lemma {:induction false} OnlyTheseNames(row: ViewRow)
    ensures forall c :: c in Columns(row) ==>
      exists k :: 0 <= k < |row| && row[k].0 != ApplicationNumber && Mapping(row[k].0) == Some(c)
  {
    if row != [] {
      var n := |row| - 1;
      OnlyTheseNames(row[..n]);
      assert Mapping(ApplicationNumber) == None;
      forall c | c in Columns(row)
        ensures exists k :: 0 <= k < |row| && row[k].0 != ApplicationNumber && Mapping(row[k].0) == Some(c)
      {
        if Mapping(row[n].0) != Some(c) {
          var k :| 0 <= k < n && row[..n][k].0 != ApplicationNumber && Mapping(row[..n][k].0) == Some(c);
          assert row[k] == row[..n][k];
        }
      }
    }
  }

  /** A plot number that is given gets the second address line appended; nothing else is touched. */
  lemma AddressAppended(row: ViewRow, k: nat, l: nat)
    requires EachOnce(row) && k < |row| && l < |row| && row[l].0 == AddressLine2
    ensures |Prepared(row)| == |row| && Prepared(row)[k].0 == row[k].0
    ensures Prepared(row)[k].1 ==
      if row[k].0 == FlatPlotNumber && row[k].1 != "" then row[k].1 + row[l].1 else row[k].1
  {
    ValueIs(row, l);
  }

  lemma {:induction false} ValueIs(row: ViewRow, l: nat)
    requires EachOnce(row) && l < |row|
    ensures ValueOf(row, row[l].0) == row[l].1
  {
    if l > 0 {
      ValueIs(row[1..], l - 1);
    }
  }

  // ---------------------------------------------------------------------------------------
  // All customers at once.
  // ---------------------------------------------------------------------------------------

  datatype Tagged = Tagged(cif: Cif, row: ViewRow)

  /** The rows of one customer, in order. */
  function RowsOf(rows: seq<Tagged>, cif: Cif): seq<ViewRow> {
    if rows == [] then []
    else
      var last, before := rows[|rows| - 1], RowsOf(rows[..|rows| - 1], cif);
      if last.cif == cif then before + [last.row] else before
  }

  lemma RowsAppended(rows: seq<Tagged>, r: Tagged)
    ensures forall c :: RowsOf(rows + [r], c) == if c == r.cif then RowsOf(rows, c) + [r.row] else RowsOf(rows, c)
  {
    assert (rows + [r])[..|rows|] == rows;
  }

  lemma MergedAppended(p: Profile, rows: seq<ViewRow>, row: ViewRow)
    ensures Merged(p, rows + [row]) ==
      if rows == [] then p + Columns(Prepared(row)) else Merged(p, rows) + SecondColumns(Prepared(row))
  {
    assert (rows + [row])[..|rows|] == rows;
  }

  lemma MergedStep(profiles: map<Cif, Profile>, rows: seq<Tagged>, r: Tagged)
    requires r.cif in profiles
    ensures forall c :: RowsOf(rows + [r], c) != [] <==> c == r.cif || RowsOf(rows, c) != []
    ensures forall c :: c in profiles && c != r.cif ==>
      Merged(profiles[c], RowsOf(rows + [r], c)) == Merged(profiles[c], RowsOf(rows, c))
    ensures Merged(profiles[r.cif], RowsOf(rows + [r], r.cif)) ==
      Merged(profiles[r.cif], RowsOf(rows, r.cif))
        + if RowsOf(rows, r.cif) == [] then Columns(Prepared(r.row)) else SecondColumns(Prepared(r.row))
  {
    hide Mapping;
    RowsAppended(rows, r);
    MergedAppended(profiles[r.cif], RowsOf(rows, r.cif), r.row);
  }

  lemma NoRows()
    ensures forall c :: RowsOf([], c) == []
  {
  }

  lemma NothingMerged(profiles: map<Cif, Profile>)
    ensures forall c :: c in profiles ==> Merged(profiles[c], []) == profiles[c]
  {
  }

  /** createMappedObject and createReferenceMappedObject: properties are stored one after another. */
  method StoreColumns(row: ViewRow, second: bool, p: Profile) returns (out: Profile)
    ensures out == p + if second then SecondColumns(row) else Columns(row)
  {
    hide Mapping;
    out := p;
    for i := 0 to |row|
      invariant out == p + if second then SecondColumns(row[..i]) else Columns(row[..i])
    {
      assert row[..i + 1][..i] == row[..i];
      var (v, x) := row[i];
      out := Store(out, if second then SecondTarget(v) else Mapping(v), x);
    }
    assert row[..|row|] == row;
  }

  /**
   * The merge loop: whatever the interleaving, each profile is what its own rows in their own order
   * make of it. A row of a customer that has no object throws.
   */
  method MergeReferences(rows: seq<Tagged>, profiles: map<Cif, Profile>) returns (thrown: bool, out: map<Cif, Profile>)
    ensures thrown <==> exists i :: 0 <= i < |rows| && rows[i].cif !in profiles
    ensures !thrown ==> out == map c | c in profiles :: Merged(profiles[c], RowsOf(rows, c))
  {
    hide Mapping, Merged, Prepared, Columns, SecondColumns, RowsOf;
    out := profiles;
    NothingMerged(profiles);
    NoRows();
    var visited: set<Cif> := {};
    for i := 0 to |rows|
      invariant forall k :: 0 <= k < i ==> rows[k].cif in profiles
      invariant forall c :: c in visited <==> RowsOf(rows[..i], c) != []
      invariant out.Keys == profiles.Keys
      invariant forall c :: c in profiles ==> out[c] == Merged(profiles[c], RowsOf(rows[..i], c))
    {
      var element := rows[i];
      if element.cif !in out {
        return true, out;
      }
      assert rows[..i + 1] == rows[..i] + [element];
      MergedStep(profiles, rows[..i], element);
      var merged := StoreColumns(Prepared(element.row), element.cif in visited, out[element.cif]);
      visited := visited + {element.cif};
      out := out[element.cif := merged];
    }
    assert rows[..|rows|] == rows;
    thrown := false;
  }
}
