/** The incoming rows of a bulk import: what is checked before a row is considered at all. */
module ImportRows {
  import opened Tables

  datatype Column =
    | FirstName | LastName | Gender | Email | MobileNumber | CustomerCode | Panno | IdNo
    | Other(name: string)

  /** A property of an incoming object, compared with `===`. */
  datatype Field = Undefined | Null | Text(s: string)

  type Columns = map<Column, Field>

  function Get(row: Columns, k: Column): Field {
    if k in row then row[k] else Undefined
  }

  // ---------------------------------------------------------------------------------------
  // customExcelValidate
  // ---------------------------------------------------------------------------------------

  /** A name that is missing makes the check throw rather than fail. */
  datatype Verdict = Valid | Invalid | Throws

  predicate IsLetter(c: char) { 'a' <= c <= 'z' || 'A' <= c <= 'Z' }
  predicate IsDigit(c: char) { '0' <= c <= '9' }

  predicate Digits(s: string, least: nat, most: nat) {
    least <= |s| <= most && forall i :: 0 <= i < |s| ==> IsDigit(s[i])
  }

  predicate LocalPart(s: string) {
    s != "" && forall i :: 0 <= i < |s| ==> IsLetter(s[i]) || IsDigit(s[i]) || s[i] in "_-."
  }

  /** One or more labels, each closed by a dot. */
  predicate Labels(s: string) {
    && s != "" && s[0] != '.' && s[|s| - 1] == '.'
    && (forall i :: 0 <= i < |s| ==> IsLetter(s[i]) || IsDigit(s[i]) || s[i] in "-.")
    && (forall i :: 0 < i < |s| && s[i] == '.' ==> s[i - 1] != '.')
  }

  predicate BracketedAddress(s: string) {
    exists a, b | 0 < a < b < |s| - 1 ::
      && s[0] == '[' && s[a] == '.' && s[b] == '.' && s[|s| - 1] == '.'
      && Digits(s[1..a], 1, 3) && Digits(s[a + 1..b], 1, 3) && Digits(s[b + 1..|s| - 1], 1, 3)
  }

  predicate TopLevel(s: string) {
    var t := if s != "" && s[|s| - 1] == ']' then s[..|s| - 1] else s;
    Digits(t, 1, 3) || (2 <= |t| <= 4 && forall i :: 0 <= i < |t| ==> IsLetter(t[i]))
  }

  predicate Domain(s: string) {
    exists k | 0 < k < |s| :: (Labels(s[..k]) || BracketedAddress(s[..k])) && TopLevel(s[k..])
  }

  predicate EmailShape(s: string) {
    exists at | 0 < at < |s| :: s[at] == '@' && LocalPart(s[..at]) && Domain(s[at + 1..])
  }

  function NameVerdict(f: Field): Verdict {
    if !f.Text? then Throws
    else if 3 <= |f.s| <= 30 then Valid
    else Invalid
  }

  /** What a property that is not a string reads as when a pattern is matched against it. */
  function AsText(f: Field): string {
    match f
    case Undefined => "undefined"
    case Null => "null"
    case Text(s) => s
  }

  function Validate(row: Columns): Verdict {
    if NameVerdict(Get(row, FirstName)) != Valid then NameVerdict(Get(row, FirstName))
    else if NameVerdict(Get(row, LastName)) != Valid then NameVerdict(Get(row, LastName))
    else if Get(row, Gender) !in [Text("MALE"), Text("FEMALE"), Text("NOT SPECIFIED"), Text("THIRD GENDER")] then
      Invalid
    else if !EmailShape(AsText(Get(row, Email))) then Invalid
    else if !(Get(row, MobileNumber).Text? && |Get(row, MobileNumber).s| == 10) then Invalid
    else if Get(row, CustomerCode) == Text("") then Invalid
    else if Get(row, Panno).Text? && |Get(row, Panno).s| != 10 then Invalid
    else Valid
  }

  /** A missing e-mail or mobile number never passes; a missing customer code or PAN does. */
  lemma ValidRowsHaveEmailAndMobile(row: Columns)
    requires Validate(row) == Valid
    ensures Get(row, Email).Text? && Get(row, MobileNumber).Text?
  {
    var e := AsText(Get(row, Email));
    var at :| 0 < at < |e| && e[at] == '@';
    assert e[at] in e;
  }

  // ---------------------------------------------------------------------------------------
  // The list of values already seen, shared by several columns.
  // ---------------------------------------------------------------------------------------

  datatype Job = Create | Sync

  /** The columns checked for repetition, in order. */
  function Checked(job: Job, row: Columns): seq<Field> {
    match job
    case Create => [Get(row, Email), Get(row, MobileNumber), Get(row, CustomerCode), Get(row, Panno)]
    case Sync => [Get(row, Email), Get(row, MobileNumber), Get(row, IdNo), Get(row, CustomerCode)]
  }

  /** Values are examined one by one up to the first repetition; those examined are remembered. */
  function Examine(seen: set<Field>, vals: seq<Field>): (bool, set<Field>)
    decreases |vals|
  {
    if vals == [] then (true, seen)
    else if vals[0] in seen then (false, seen)
    else Examine(seen + {vals[0]}, vals[1..])
  }

  /** Everything examined in the first n rows. */
  function Seen(job: Job, rows: seq<Columns>, n: nat): set<Field>
    requires n <= |rows|
  {
    if n == 0 then {}
    else if Validate(rows[n - 1]) != Valid then Seen(job, rows, n - 1)
    else Examine(Seen(job, rows, n - 1), Checked(job, rows[n - 1])).1
  }

  /** A valid row none of whose checked values repeats. */
  predicate Fresh(job: Job, rows: seq<Columns>, i: nat)
    requires i < |rows|
  {
    Validate(rows[i]) == Valid && Examine(Seen(job, rows, i), Checked(job, rows[i])).0
  }

  lemma {:induction false} ExamineExact(seen: set<Field>, vals: seq<Field>)
    ensures Examine(seen, vals).0 <==>
      (forall v :: v in vals ==> v !in seen) && (forall i, j :: 0 <= i < j < |vals| ==> vals[i] != vals[j])
    ensures seen <= Examine(seen, vals).1 <= seen + set v | v in vals
    ensures Examine(seen, vals).0 ==> Examine(seen, vals).1 == seen + set v | v in vals
    decreases |vals|
  {
    if vals != [] {
      ExamineExact(seen + {vals[0]}, vals[1..]);
      assert forall v :: v in vals <==> v == vals[0] || v in vals[1..];
      assert forall j :: 0 < j < |vals| ==> vals[j] == vals[1..][j - 1];
      if Examine(seen, vals).0 {
        forall j | 0 < j < |vals|
          ensures vals[j] != vals[0]
        {
          assert vals[j] in vals[1..];
        }
      }
    }
  }

  /** Scanning the list refines set membership: a row is fresh exactly when its checked values are new and distinct. */
  lemma FreshExact(job: Job, rows: seq<Columns>, i: nat)
    requires i < |rows|
    ensures Fresh(job, rows, i) <==>
      && Validate(rows[i]) == Valid
      && (forall v :: v in Checked(job, rows[i]) ==> v !in Seen(job, rows, i))
      && (forall a, b :: 0 <= a < b < 4 ==> Checked(job, rows[i])[a] != Checked(job, rows[i])[b])
  {
    ExamineExact(Seen(job, rows, i), Checked(job, rows[i]));
  }

  /** The fresh rows among the first n, in order. */
  function Picked(job: Job, rows: seq<Columns>, n: nat): seq<Columns>
    requires n <= |rows|
  {
    if n == 0 then []
    else if Fresh(job, rows, n - 1) then Picked(job, rows, n - 1) + [rows[n - 1]]
    else Picked(job, rows, n - 1)
  }

  /** The checked values of one row are pairwise different. */
  ghost predicate Apart(job: Job, row: Columns) {
    forall a, b :: 0 <= a < b < 4 ==> Checked(job, row)[a] != Checked(job, row)[b]
  }

  /** Two rows share no checked value, in the same column or in different ones. */
  ghost predicate Disjoint(job: Job, r: Columns, q: Columns) {
    forall v :: v in Checked(job, r) ==> v !in Checked(job, q)
  }

  ghost predicate ValuesDistinct(job: Job, picks: seq<Columns>) {
    && (forall i :: 0 <= i < |picks| ==> Validate(picks[i]) == Valid && Apart(job, picks[i]))
    && (forall i, j :: 0 <= i < j < |picks| ==> Disjoint(job, picks[i], picks[j]))
  }

  lemma FreshRow(job: Job, rows: seq<Columns>, n: nat)
    requires n < |rows| && Fresh(job, rows, n)
    ensures Validate(rows[n]) == Valid && Apart(job, rows[n])
    ensures forall v :: v in Checked(job, rows[n]) ==> v !in Seen(job, rows, n) && v in Seen(job, rows, n + 1)
  {
    ExamineExact(Seen(job, rows, n), Checked(job, rows[n]));
  }

  lemma SeenGrows(job: Job, rows: seq<Columns>, n: nat)
    requires n < |rows|
    ensures Seen(job, rows, n) <= Seen(job, rows, n + 1)
  {
    ExamineExact(Seen(job, rows, n), Checked(job, rows[n]));
  }

  /** The picked rows are valid and their checked values are mutually distinct, within and across rows. */
  lemma {:induction false} PickedValuesDistinct(job: Job, rows: seq<Columns>, n: nat)
    requires n <= |rows|
    ensures ValuesDistinct(job, Picked(job, rows, n))
    ensures forall p, v :: p in Picked(job, rows, n) && v in Checked(job, p) ==> v in Seen(job, rows, n)
  {
    hide Validate, Fresh, Seen, Checked;
    if n > 0 {
      PickedValuesDistinct(job, rows, n - 1);
      SeenGrows(job, rows, n - 1);
      var before := Picked(job, rows, n - 1);
      if Fresh(job, rows, n - 1) {
        FreshRow(job, rows, n - 1);
        forall i | 0 <= i < |before|
          ensures Disjoint(job, before[i], rows[n - 1])
        {
          assert before[i] in before;
        }
      }
    }
  }

  /** The picked rows are a subsequence of the input: exactly the fresh rows, with their order kept. */
  lemma {:induction false} PickedIsSubsequence(job: Job, rows: seq<Columns>, n: nat) returns (at: seq<nat>)
    requires n <= |rows|
    ensures |at| == |Picked(job, rows, n)|
    ensures forall i :: 0 <= i < |at| ==> at[i] < n && Picked(job, rows, n)[i] == rows[at[i]]
    ensures forall i, j :: 0 <= i < j < |at| ==> at[i] < at[j]
    ensures forall k: nat :: k < n ==> (Fresh(job, rows, k) <==> k in at)
  {
    hide Fresh;
    at := [];
    if n > 0 {
      at := PickedIsSubsequence(job, rows, n - 1);
      if Fresh(job, rows, n - 1) {
        at := at + [n - 1];
      }
    }
  }
}
