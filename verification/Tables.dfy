/** In-memory database tables: rows are never removed, only marked obsolete. */
module Tables {

  datatype Option<+T> = None | Some(value: T)

  /** A stored row: its columns and the soft-delete mark every entity carries. */
  datatype Row<+T> = Row(data: T, obsolete: bool)

  /** What a caller can still see: the rows that are not marked obsolete, in table order. */
  function Live<T>(rows: seq<Row<T>>): seq<T> {
    if rows == [] then []
    else if rows[0].obsolete then Live(rows[1..])
    else [rows[0].data] + Live(rows[1..])
  }

  /** `UPDATE ... WHERE where`: reaches obsolete rows too. */
  function UpdateAll<T>(rows: seq<Row<T>>, where: T -> bool, set_: T -> T): seq<Row<T>> {
    seq(|rows|, i requires 0 <= i < |rows| =>
      if where(rows[i].data) then Row(set_(rows[i].data), rows[i].obsolete) else rows[i])
  }

  /** `UPDATE ... WHERE where AND NOT is_obsolete`. */
  function UpdateLive<T>(rows: seq<Row<T>>, where: T -> bool, set_: T -> T): seq<Row<T>> {
    seq(|rows|, i requires 0 <= i < |rows| =>
      if !rows[i].obsolete && where(rows[i].data) then Row(set_(rows[i].data), false) else rows[i])
  }

  /** `UPDATE ... SET is_obsolete = true WHERE where`. */
  function Retire<T>(rows: seq<Row<T>>, where: T -> bool): seq<Row<T>> {
    seq(|rows|, i requires 0 <= i < |rows| =>
      if where(rows[i].data) then Row(rows[i].data, true) else rows[i])
  }

  /** `UPDATE ... SET is_obsolete = true WHERE where AND NOT is_obsolete`. */
  function RetireLive<T>(rows: seq<Row<T>>, where: T -> bool): seq<Row<T>> {
    seq(|rows|, i requires 0 <= i < |rows| =>
      if !rows[i].obsolete && where(rows[i].data) then Row(rows[i].data, true) else rows[i])
  }

  function Insert<T>(rows: seq<Row<T>>, data: T): seq<Row<T>> {
    rows + [Row(data, false)]
  }

  /** `findOne({ where, is_obsolete: false })`. */
  function FindLive<T>(rows: seq<Row<T>>, where: T -> bool): Option<T> {
    if rows == [] then None
    else if !rows[0].obsolete && where(rows[0].data) then Some(rows[0].data)
    else FindLive(rows[1..], where)
  }

  // The same operations on the visible rows alone.

  function Overlay<T>(rows: seq<T>, where: T -> bool, set_: T -> T): seq<T> {
    if rows == [] then []
    else [if where(rows[0]) then set_(rows[0]) else rows[0]] + Overlay(rows[1..], where, set_)
  }

  function Without<T>(rows: seq<T>, where: T -> bool): seq<T> {
    if rows == [] then []
    else if where(rows[0]) then Without(rows[1..], where)
    else [rows[0]] + Without(rows[1..], where)
  }

  function First<T>(rows: seq<T>, where: T -> bool): Option<T> {
    if rows == [] then None
    else if where(rows[0]) then Some(rows[0])
    else First(rows[1..], where)
  }

  // Every table operation is seen through Live as the operation on visible rows.

  lemma {:induction false} LiveConcat<T>(a: seq<Row<T>>, b: seq<Row<T>>)
    ensures Live(a + b) == Live(a) + Live(b)
  {
    if a == [] {
      assert a + b == b;
    } else {
      LiveConcat(a[1..], b);
      assert (a + b)[0] == a[0] && (a + b)[1..] == a[1..] + b;
    }
  }

  lemma LiveInsert<T>(rows: seq<Row<T>>, data: T)
    ensures Live(Insert(rows, data)) == Live(rows) + [data]
  {
    LiveConcat(rows, [Row(data, false)]);
  }

  lemma {:induction false} LiveUpdate<T>(rows: seq<Row<T>>, where: T -> bool, set_: T -> T)
    ensures Live(UpdateAll(rows, where, set_)) == Overlay(Live(rows), where, set_)
    ensures Live(UpdateLive(rows, where, set_)) == Overlay(Live(rows), where, set_)
  {
    if rows != [] {
      LiveUpdate(rows[1..], where, set_);
      assert UpdateAll(rows, where, set_)[1..] == UpdateAll(rows[1..], where, set_);
      assert UpdateLive(rows, where, set_)[1..] == UpdateLive(rows[1..], where, set_);
    }
  }

  lemma {:induction false} LiveRetire<T>(rows: seq<Row<T>>, where: T -> bool)
    ensures Live(Retire(rows, where)) == Without(Live(rows), where)
    ensures Live(RetireLive(rows, where)) == Without(Live(rows), where)
  {
    if rows != [] {
      LiveRetire(rows[1..], where);
      assert Retire(rows, where)[1..] == Retire(rows[1..], where);
      assert RetireLive(rows, where)[1..] == RetireLive(rows[1..], where);
    }
  }

  lemma {:induction false} LiveFind<T>(rows: seq<Row<T>>, where: T -> bool)
    ensures FindLive(rows, where) == First(Live(rows), where)
  {
    if rows != [] {
      LiveFind(rows[1..], where);
    }
  }

  lemma {:induction false} FirstAfterAppend<T>(rows: seq<T>, r: T, where: T -> bool)
    ensures First(rows + [r], where) ==
      if First(rows, where).Some? then First(rows, where) else if where(r) then Some(r) else None
  {
    if rows != [] {
      assert (rows + [r])[1..] == rows[1..] + [r];
      FirstAfterAppend(rows[1..], r, where);
    }
  }

  lemma {:induction false} FirstFound<T>(rows: seq<T>, where: T -> bool)
    ensures First(rows, where).Some? <==> exists i :: 0 <= i < |rows| && where(rows[i])
    ensures First(rows, where).Some? ==> First(rows, where).value in rows && where(First(rows, where).value)
  {
    if rows != [] {
      FirstFound(rows[1..], where);
      assert forall i :: 0 < i < |rows| ==> rows[i] == rows[1..][i - 1];
      if !where(rows[0]) && First(rows[1..], where).Some? {
        var i :| 0 <= i < |rows[1..]| && where(rows[1..][i]);
        assert where(rows[i + 1]);
      }
    }
  }

  lemma {:induction false} OverlayAt<T>(rows: seq<T>, where: T -> bool, set_: T -> T)
    ensures |Overlay(rows, where, set_)| == |rows|
    ensures forall i :: 0 <= i < |rows| ==>
      Overlay(rows, where, set_)[i] == if where(rows[i]) then set_(rows[i]) else rows[i]
  {
    if rows != [] {
      OverlayAt(rows[1..], where, set_);
    }
  }

  lemma {:induction false} WithoutMembers<T>(rows: seq<T>, where: T -> bool)
    ensures forall r :: r in Without(rows, where) <==> r in rows && !where(r)
  {
    if rows != [] {
      WithoutMembers(rows[1..], where);
    }
  }
}
