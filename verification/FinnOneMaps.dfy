/**
 * One customer number, or one application number, for each CIF: the row with the largest number
 * after the four-letter prefix.
 */
module FinnOneMaps {
  import opened Tables

  type Cif = string
  type Number = string

  // ---------------------------------------------------------------------------------------
  // Reading the number behind the prefix, in the two ways the service does.
  // ---------------------------------------------------------------------------------------

  predicate IsDigit(c: char) { '0' <= c <= '9' }

  function DigitPrefix(s: string): string {
    if s == "" || !IsDigit(s[0]) then "" else [s[0]] + DigitPrefix(s[1..])
  }

  predicate AllDigits(s: string) {
    s != "" && forall i :: 0 <= i < |s| ==> IsDigit(s[i])
  }

  function Value(s: string): nat {
    if s == "" then 0
    else
      var d := s[|s| - 1];
      10 * Value(s[..|s| - 1]) + if IsDigit(d) then d as int - '0' as int else 0
  }

  /** parseInt(s, 10): the leading digits; None is NaN. */
  function ParseInt(s: string): Option<nat> {
    if DigitPrefix(s) == "" then None else Some(Value(DigitPrefix(s)))
  }

  const TWO_TO_31: nat := 0x8000_0000
  const TWO_TO_32: nat := 0x1_0000_0000

  function ToInt32(v: nat): int {
    var w := v % TWO_TO_32;
    if w < TWO_TO_31 then w else w - TWO_TO_32
  }

  /** s | 0: the whole string as a 32-bit integer, 0 when it is not a number. */
  function OrZero(s: string): int {
    if AllDigits(s) then ToInt32(Value(s)) else 0
  }

  /** substring(4) */
  function Tail(n: Number): string {
    if |n| <= 4 then "" else n[4..]
  }

  function Suffix(n: Number): Option<nat> {
    ParseInt(Tail(n))
  }

  // ---------------------------------------------------------------------------------------
  // fetchCustomerNumberAndCIFMap: the choice for one CIF. An empty number counts as unset.
  // ---------------------------------------------------------------------------------------

  predicate Larger(n: Number, than: Number) {
    Suffix(n).Some? && Suffix(than).Some? && Suffix(n).value > Suffix(than).value
  }

  function Choose(current: Number, n: Number): Number {
    if current == "" || Larger(n, current) then n else current
  }

  function Choice(ns: seq<Number>): Number {
    if ns == [] then "" else Choose(Choice(ns[..|ns| - 1]), ns[|ns| - 1])
  }

  /** The first number that is not empty. */
  function FirstFilled(ns: seq<Number>): Number {
    if ns == [] then ""
    else if FirstFilled(ns[..|ns| - 1]) != "" then FirstFilled(ns[..|ns| - 1])
    else ns[|ns| - 1]
  }

  ghost predicate Largest(ns: seq<Number>, a: Number) {
    && a in ns && Suffix(a).Some?
    && forall b :: b in ns && Suffix(b).Some? ==> Suffix(b).value <= Suffix(a).value
  }

  lemma SuffixOfEmpty()
    ensures Suffix("").None?
  {
    assert DigitPrefix("") == "";
  }

  /** The choice is the first number of largest suffix; but a first number without a suffix is never replaced. */
  lemma {:induction false} ChoiceIsFirstLargest(ns: seq<Number>)
    ensures FirstFilled(ns) == "" <==> Choice(ns) == ""
    ensures Suffix(FirstFilled(ns)).None? ==> Choice(ns) == FirstFilled(ns)
    ensures Suffix(FirstFilled(ns)).Some? ==>
      && Largest(ns, Choice(ns))
      && exists j :: 0 <= j < |ns| && ns[j] == Choice(ns) && forall i :: 0 <= i < j ==> !Largest(ns, ns[i])
  {
    SuffixOfEmpty();
    if ns != [] {
      hide Suffix;
      var before, last := ns[..|ns| - 1], ns[|ns| - 1];
      ChoiceIsFirstLargest(before);
      assert forall n :: n in ns <==> n in before || n == last;
      if Suffix(FirstFilled(ns)).Some? {
        if Suffix(FirstFilled(before)).None? || Larger(last, Choice(before)) {
          assert Choice(ns) == ns[|ns| - 1];
          if Suffix(FirstFilled(before)).None? {
            NoneFilled(before);
          }
          assert forall i :: 0 <= i < |before| ==> ns[i] in before;
        } else {
          var j :| 0 <= j < |before| && before[j] == Choice(before)
            && forall i :: 0 <= i < j ==> !Largest(before, before[i]);
          assert ns[j] == Choice(ns);
          forall i | 0 <= i < j
            ensures !Largest(ns, ns[i])
          {
            assert before[i] in before && !Largest(before, before[i]);
          }
        }
      }
    }
  }

  lemma {:induction false} NoneFilled(ns: seq<Number>)
    ensures FirstFilled(ns) == "" <==> forall n :: n in ns ==> n == ""
    ensures FirstFilled(ns) != "" ==> FirstFilled(ns) in ns
    ensures ns != [] && ns[0] != "" ==> FirstFilled(ns) == ns[0]
  {
    if ns != [] {
      var before, last := ns[..|ns| - 1], ns[|ns| - 1];
      NoneFilled(before);
      assert forall n :: n in ns <==> n in before || n == last;
      assert FirstFilled(ns) in ns;
    }
  }

  /** Either all numbers are the same, or all have suffixes and only one of them has the largest. */
  ghost predicate OrderFree(ns: seq<Number>) {
    || (forall a, b :: a in ns && b in ns && a != "" && b != "" ==> a == b)
    || ((forall a :: a in ns && a != "" ==> Suffix(a).Some?)
        && (forall a, b :: Largest(ns, a) && Largest(ns, b) ==> a == b))
  }

  ghost predicate Permutes(ns: seq<Number>, ms: seq<Number>) {
    multiset(ns) == multiset(ms)
  }

  lemma SameMembers(ns: seq<Number>, ms: seq<Number>)
    requires Permutes(ns, ms)
    ensures forall n :: n in ns <==> n in ms
    ensures forall n :: Largest(ns, n) <==> Largest(ms, n)
  {
    forall n: Number
      ensures n in ns <==> n in ms
    {
      assert n in ns <==> n in multiset(ns);
      assert n in ms <==> n in multiset(ms);
    }
  }

  lemma OrderFreeChoice(ns: seq<Number>, ms: seq<Number>)
    requires OrderFree(ns) && Permutes(ns, ms)
    ensures Choice(ns) == Choice(ms)
  {
    SuffixOfEmpty();
    hide Suffix;
    SameMembers(ns, ms);
    ChoiceIsFirstLargest(ns);
    ChoiceIsFirstLargest(ms);
    NoneFilled(ns);
    NoneFilled(ms);
  }

  /** The same numbers with one of them moved to the front. */
  lemma Promote(ns: seq<Number>, a: Number) returns (ms: seq<Number>)
    requires a in ns
    ensures ms != [] && ms[0] == a && Permutes(ns, ms)
  {
    var i :| 0 <= i < |ns| && ns[i] == a;
    assert ns == ns[..i] + [ns[i]] + ns[i + 1..];
    ms := [a] + ns[..i] + ns[i + 1..];
  }

  /** Moved to the front, a number without a suffix or with a largest one is chosen; any other leaves one chosen. */
  lemma ChoosePromoted(ns: seq<Number>, a: Number) returns (ms: seq<Number>)
    requires a in ns && a != ""
    ensures Permutes(ns, ms)
    ensures Suffix(a).None? || Largest(ns, a) ==> Choice(ms) == a
    ensures Suffix(a).Some? ==> Suffix(Choice(ms)).Some?
  {
    hide Suffix;
    ms := Promote(ns, a);
    SameMembers(ns, ms);
    NoneFilled(ms);
    ChoiceIsFirstLargest(ms);
  }

  /** Two orders of the same numbers that lead to two choices, when the numbers are not order free. */
  lemma TwoChoices(ns: seq<Number>) returns (ms: seq<Number>, ks: seq<Number>)
    requires !OrderFree(ns)
    ensures Permutes(ns, ms) && Permutes(ns, ks) && Choice(ms) != Choice(ks)
  {
    SuffixOfEmpty();
    hide Suffix, Choice, Permutes;
    var a, b;
    if c :| c in ns && c != "" && Suffix(c).None? {
      var d, e :| d in ns && e in ns && d != "" && e != "" && d != e;
      a, b := c, if d != c then d else e;
    } else {
      a, b :| Largest(ns, a) && Largest(ns, b) && a != b;
    }
    ms := ChoosePromoted(ns, a);
    ks := ChoosePromoted(ns, b);
  }

  /** The choice does not depend on the order of the rows exactly when the numbers are order free. */
  lemma OrderDoesNotMatterExactly(ns: seq<Number>)
    ensures (forall ms :: Permutes(ns, ms) ==> Choice(ms) == Choice(ns)) <==> OrderFree(ns)
  {
    if OrderFree(ns) {
      forall ms | Permutes(ns, ms)
        ensures Choice(ms) == Choice(ns)
      {
        OrderFreeChoice(ns, ms);
      }
    } else {
      var ms, ks := TwoChoices(ns);
      assert Choice(ms) != Choice(ns) || Choice(ks) != Choice(ns);
    }
  }

  // ---------------------------------------------------------------------------------------
  // checkCustomerBulkInstrumentDetails: the choice for one CIF.
  // ---------------------------------------------------------------------------------------

  function PickNext(current: Number, n: Number): Number {
    var c := if current == "" then n else current;
    if Suffix(c).Some? && Suffix(c).value < OrZero(Tail(n)) then n else c
  }

  function Pick(ns: seq<Number>): Number {
    if ns == [] then "" else PickNext(Pick(ns[..|ns| - 1]), ns[|ns| - 1])
  }

  /** Application numbers as they are meant: a prefix followed by digits only. */
  predicate Numeric(n: Number) {
    AllDigits(Tail(n))
  }

  lemma {:induction false} DigitsParse(s: string)
    requires forall i :: 0 <= i < |s| ==> IsDigit(s[i])
    ensures DigitPrefix(s) == s
  {
    if s != "" {
      DigitsParse(s[1..]);
    }
  }

  lemma ReadingsAgree(n: Number)
    requires Numeric(n) && Value(Tail(n)) < TWO_TO_31
    ensures n != "" && Suffix(n) == Some(Value(Tail(n))) && OrZero(Tail(n)) == Value(Tail(n))
  {
    DigitsParse(Tail(n));
  }

  /** Below 2^31 the two readings of a number agree, and so do the two choices. */
  lemma {:induction false} PickIsChoice(ns: seq<Number>)
    requires forall n :: n in ns ==> Numeric(n) && Value(Tail(n)) < TWO_TO_31
    ensures Pick(ns) == Choice(ns)
    ensures ns != [] ==> Pick(ns) in ns
  {
    hide Suffix, OrZero, Value, Numeric;
    if ns != [] {
      var before, last := ns[..|ns| - 1], ns[|ns| - 1];
      assert forall n :: n in before ==> n in ns;
      assert last in ns;
      PickIsChoice(before);
      ReadingsAgree(last);
      if before != [] {
        ReadingsAgree(Pick(before));
      }
    }
  }

  function Decimal(v: nat): string {
    if v < 10 then ['0' + v as char] else Decimal(v / 10) + ['0' + (v % 10) as char]
  }

  lemma {:induction false} DecimalReadsBack(v: nat)
    ensures AllDigits(Decimal(v)) && Value(Decimal(v)) == v
  {
    if v < 10 {
      assert Decimal(v)[..0] == "";
    } else {
      DecimalReadsBack(v / 10);
      assert Decimal(v)[..|Decimal(v)| - 1] == Decimal(v / 10);
    }
  }

  function ApplicationNumber(v: nat): Number {
    "APPL" + Decimal(v)
  }

  lemma ReadsBack(v: nat)
    ensures var n := ApplicationNumber(v);
      Numeric(n) && Value(Tail(n)) == v && Suffix(n) == Some(v) && OrZero(Tail(n)) == ToInt32(v)
  {
    DecimalReadsBack(v);
    assert Tail(ApplicationNumber(v)) == Decimal(v);
    DigitsParse(Decimal(v));
  }

  lemma ChoicesOfTwo(a: Number, b: Number)
    requires a != ""
    ensures Pick([a, b]) == PickNext(PickNext("", a), b) && Choice([a, b]) == Choose(a, b)
  {
    assert [a, b][..1] == [a] && [a][..0] == [];
    assert Pick([a]) == PickNext(Pick([]), a) && Choice([a]) == Choose(Choice([]), a);
  }

  /** The larger of two is missed once it reads as negative. */
  lemma BeyondIsMissed()
    ensures var a, b := ApplicationNumber(TWO_TO_31 - 1), ApplicationNumber(TWO_TO_31);
      Choice([a, b]) == b && Pick([a, b]) == a && a != b
  {
    var a, b := ApplicationNumber(TWO_TO_31 - 1), ApplicationNumber(TWO_TO_31);
    ReadsBack(TWO_TO_31 - 1);
    ReadsBack(TWO_TO_31);
    hide Suffix, OrZero, Value, Numeric, ApplicationNumber;
    SuffixOfShort();
    ChoicesOfTwo(a, b);
  }

  lemma SuffixOfShort()
    ensures Suffix("").None? && ApplicationNumber(0) != ""
    ensures forall v :: ApplicationNumber(v) != ""
  {
    SuffixOfEmpty();
  }

  /**
   * The largest number is picked for every table whose suffixes stay within a bound exactly when that
   * bound is below 2^31.
   */
  lemma PickBoundExact(bound: nat)
    ensures (forall ns: seq<Number> :: WithinBound(ns, bound) ==> Pick(ns) == Choice(ns)) <==> bound < TWO_TO_31
  {
    hide Suffix, OrZero, Value, Numeric, ApplicationNumber, Pick, Choice;
    if bound < TWO_TO_31 {
      forall ns: seq<Number> | WithinBound(ns, bound)
        ensures Pick(ns) == Choice(ns)
      {
        PickIsChoice(ns);
      }
    } else {
      var a, b := ApplicationNumber(TWO_TO_31 - 1), ApplicationNumber(TWO_TO_31);
      ReadsBack(TWO_TO_31 - 1);
      ReadsBack(TWO_TO_31);
      BeyondIsMissed();
      assert WithinBound([a, b], bound);
    }
  }

  ghost predicate WithinBound(ns: seq<Number>, bound: nat) {
    forall n :: n in ns ==> Numeric(n) && Value(Tail(n)) <= bound
  }

  // ---------------------------------------------------------------------------------------
  // The maps.
  // ---------------------------------------------------------------------------------------

  datatype ViewRow = ViewRow(cif: Cif, number: Number)

  /** The numbers of one CIF, in row order. */
  function NumbersOf(rows: seq<ViewRow>, cif: Cif): seq<Number> {
    if rows == [] then []
    else
      var last, before := rows[|rows| - 1], NumbersOf(rows[..|rows| - 1], cif);
      if last.cif == cif then before + [last.number] else before
  }

  /** Rows in another order give every CIF its numbers in another order. */
  lemma {:induction false} NumbersCounted(rows: seq<ViewRow>, cif: Cif, n: Number)
    ensures multiset(NumbersOf(rows, cif))[n] == multiset(rows)[ViewRow(cif, n)]
  {
    if rows != [] {
      var before, last := rows[..|rows| - 1], rows[|rows| - 1];
      assert rows == before + [last];
      NumbersCounted(before, cif, n);
    }
  }

  lemma RowOrderDoesNotMatter(rows: seq<ViewRow>, others: seq<ViewRow>, cif: Cif)
    requires multiset(rows) == multiset(others) && OrderFree(NumbersOf(rows, cif))
    ensures Choice(NumbersOf(rows, cif)) == Choice(NumbersOf(others, cif))
  {
    forall n: Number
      ensures multiset(NumbersOf(rows, cif))[n] == multiset(NumbersOf(others, cif))[n]
    {
      NumbersCounted(rows, cif, n);
      NumbersCounted(others, cif, n);
    }
    assert multiset(NumbersOf(rows, cif)) == multiset(NumbersOf(others, cif));
    OrderFreeChoice(NumbersOf(rows, cif), NumbersOf(others, cif));
  }

  /** Every number leads back to a CIF it is the choice of, and every choice is found. */
  ghost predicate Inverts(back: map<Number, Cif>, choice: map<Cif, Number>) {
    && (forall n :: n in back ==> back[n] in choice && choice[back[n]] == n)
    && (forall c :: c in choice ==> choice[c] in back)
  }

  /** The map back is the exact inverse exactly when no number is the choice of two CIFs. */
  lemma InverseExact(back: map<Number, Cif>, choice: map<Cif, Number>)
    requires Inverts(back, choice)
    ensures (forall c :: c in choice ==> back[choice[c]] == c)
       <==> (forall c, d :: c in choice && d in choice && choice[c] == choice[d] ==> c == d)
  {
    if forall c, d :: c in choice && d in choice && choice[c] == choice[d] ==> c == d {
      forall c | c in choice
        ensures back[choice[c]] == c
      {
        assert choice[back[choice[c]]] == choice[c];
      }
    }
  }

  /** Goes through the entries in some order; a number met again is overwritten. */
  method Invert(choice: map<Cif, Number>) returns (back: map<Number, Cif>)
    ensures Inverts(back, choice)
  {
    back := map[];
    var todo := choice.Keys;
    while todo != {}
      invariant todo <= choice.Keys
      invariant forall n :: n in back ==> back[n] in choice && choice[back[n]] == n
      invariant forall c :: c in choice && c !in todo ==> choice[c] in back
      decreases todo
    {
      var c :| c in todo;
      back := back[choice[c] := c];
      todo := todo - {c};
    }
  }

  lemma NumbersAppended(rows: seq<ViewRow>, r: ViewRow)
    ensures forall c ::
      NumbersOf(rows + [r], c) == if c == r.cif then NumbersOf(rows, c) + [r.number] else NumbersOf(rows, c)
  {
    assert (rows + [r])[..|rows|] == rows;
  }

  lemma ChoiceAppended(ns: seq<Number>, n: Number)
    ensures Choice([]) == "" && Choice(ns + [n]) == Choose(Choice(ns), n)
  {
    assert (ns + [n])[..|ns|] == ns;
  }

  lemma {:induction false} NoRowsNoNumbers(rows: seq<ViewRow>, cif: Cif)
    ensures NumbersOf(rows, cif) == [] <==> forall r :: r in rows ==> r.cif != cif
  {
    if rows != [] {
      var before, last := rows[..|rows| - 1], rows[|rows| - 1];
      assert rows == before + [last];
      NoRowsNoNumbers(before, cif);
    }
  }

  /** Each CIF with rows, and the number chosen among them. */
  ghost function ChoiceMap(rows: seq<ViewRow>): map<Cif, Number> {
    map r | r in rows && r.cif != "" :: r.cif := Choice(NumbersOf(rows, r.cif))
  }

  lemma ChoiceMapAppended(rows: seq<ViewRow>, r: ViewRow)
    requires r.cif != ""
    ensures var choice := ChoiceMap(rows);
      ChoiceMap(rows + [r]) == choice[r.cif := Choose(if r.cif in choice then choice[r.cif] else "", r.number)]
  {
    hide Choose, Choice;
    NumbersAppended(rows, r);
    NoRowsNoNumbers(rows, r.cif);
    ChoiceAppended(NumbersOf(rows, r.cif), r.number);
  }

  lemma ChoiceMapSkips(rows: seq<ViewRow>, r: ViewRow)
    requires r.cif == ""
    ensures ChoiceMap(rows + [r]) == ChoiceMap(rows)
  {
    NumbersAppended(rows, r);
  }

  method FetchCustomerNumberAndCIFMap(rows: seq<ViewRow>) returns (back: map<Number, Cif>)
    ensures Inverts(back, ChoiceMap(rows))
  {
    var chosen: map<Cif, Number> := map[];
    for i := 0 to |rows|
      invariant chosen == ChoiceMap(rows[..i])
    {
      var cust := rows[i];
      assert rows[..i + 1] == rows[..i] + [cust];
      if cust.cif == "" {
        ChoiceMapSkips(rows[..i], cust);
      } else {
        ChoiceMapAppended(rows[..i], cust);
      }
      if cust.cif != "" && (cust.cif !in chosen || chosen[cust.cif] == "") {
        chosen := chosen[cust.cif := cust.number];
      } else if cust.cif != "" {
        if Larger(cust.number, chosen[cust.cif]) {
          chosen := chosen[cust.cif := cust.number];
        }
      }
    }
    assert rows[..|rows|] == rows;
    back := Invert(chosen);
  }

  datatype Application = Application(cif: Cif, number: Number, status: string)

  predicate Disbursed(a: Application) {
    a.status == "Fully Disbursed" || a.status == "Partial Disbursed"
  }

  function DisbursedRows(apps: seq<Application>): seq<ViewRow> {
    if apps == [] then []
    else
      var last, before := apps[|apps| - 1], DisbursedRows(apps[..|apps| - 1]);
      if Disbursed(last) then before + [ViewRow(last.cif, last.number)] else before
  }

  /** An instrument row, with the CIF it is tagged with if any. */
  datatype Instrument = Instrument(number: Number, cif: Option<Cif>)

  /** Each row of a picked application is tagged with a CIF it was picked for; other rows are left alone. */
  ghost predicate Tagged(detail: Instrument, out: Instrument, picked: map<Cif, Number>) {
    if exists c :: c in picked && picked[c] == detail.number then
      // An empty CIF counts as none.
      || ("" in picked && picked[""] == detail.number && out == detail)
      || (out.number == detail.number && out.cif.Some?
          && out.cif.value in picked && picked[out.cif.value] == detail.number)
    else out == detail
  }

  /** Each CIF with disbursed applications, and the one picked among them. */
  ghost function PickMap(rows: seq<ViewRow>): map<Cif, Number> {
    map r | r in rows :: r.cif := Pick(NumbersOf(rows, r.cif))
  }

  lemma PickMapAppended(rows: seq<ViewRow>, r: ViewRow)
    ensures var picked := PickMap(rows);
      PickMap(rows + [r]) == picked[r.cif := PickNext(if r.cif in picked then picked[r.cif] else "", r.number)]
  {
    hide PickNext, Pick;
    NumbersAppended(rows, r);
    NoRowsNoNumbers(rows, r.cif);
    PickAppended(NumbersOf(rows, r.cif), r.number);
  }

  lemma PickAppended(ns: seq<Number>, n: Number)
    ensures Pick([]) == "" && Pick(ns + [n]) == PickNext(Pick(ns), n)
  {
    assert (ns + [n])[..|ns|] == ns;
  }

  method PickApplications(apps: seq<Application>) returns (numbers: map<Cif, Number>)
    ensures numbers == PickMap(DisbursedRows(apps))
  {
    hide Suffix, OrZero, PickNext, Disbursed;
    numbers := map[];
    for i := 0 to |apps|
      invariant numbers == PickMap(DisbursedRows(apps[..i]))
    {
      var a := apps[i];
      assert apps[..i + 1][..i] == apps[..i];
      if Disbursed(a) {
        PickMapAppended(DisbursedRows(apps[..i]), ViewRow(a.cif, a.number));
        numbers := PickRow(numbers, a);
      }
    }
    assert apps[..|apps|] == apps;
  }

  method PickRow(numbers: map<Cif, Number>, a: Application) returns (next: map<Cif, Number>)
    ensures next == numbers[a.cif := PickNext(if a.cif in numbers then numbers[a.cif] else "", a.number)]
  {
    hide Suffix, OrZero;
    next := numbers;
    if a.cif !in next || next[a.cif] == "" {
      next := next[a.cif := a.number];
    }
    var num, maxNum := OrZero(Tail(a.number)), Suffix(next[a.cif]);
    if maxNum.Some? && maxNum.value < num {
      next := next[a.cif := a.number];
    }
  }

  // ---------------------------------------------------------------------------------------
  // What the choices are, told from the rows and from how their numbers are written.
  // ---------------------------------------------------------------------------------------

  /** Four characters and a decimal. */
  predicate Written(n: Number, v: nat) {
    |n| > 4 && n[4..] == Decimal(v)
  }

  lemma WrittenReads(n: Number, v: nat)
    requires Written(n, v)
    ensures n != "" && Numeric(n) && Value(Tail(n)) == v && Suffix(n) == Some(v)
  {
    DecimalReadsBack(v);
    DigitsParse(Decimal(v));
  }

  /** The application is that customer's, and fully or partially disbursed. */
  predicate IsDisbursedOf(a: Application, cif: Cif) {
    a.cif == cif && (a.status == "Fully Disbursed" || a.status == "Partial Disbursed")
  }

  lemma {:induction false} NumbersAre(rows: seq<ViewRow>, cif: Cif)
    ensures forall n :: n in NumbersOf(rows, cif) <==> ViewRow(cif, n) in rows
  {
    if rows != [] {
      var before, last := rows[..|rows| - 1], rows[|rows| - 1];
      assert rows == before + [last];
      NumbersAre(before, cif);
    }
  }

  lemma {:induction false} DisbursedAre(apps: seq<Application>, cif: Cif)
    ensures forall n :: ViewRow(cif, n) in DisbursedRows(apps) <==>
      exists a :: a in apps && IsDisbursedOf(a, cif) && a.number == n
  {
    if apps != [] {
      var before, last := apps[..|apps| - 1], apps[|apps| - 1];
      assert apps == before + [last];
      DisbursedAre(before, cif);
    }
  }

  ghost predicate WellWritten(n: Number) {
    exists v: nat :: Written(n, v)
  }

  ghost predicate WrittenBelow(n: Number, bound: nat) {
    exists v: nat :: Written(n, v) && v < bound
  }

  ghost predicate NotLarger(n: Number, than: Number) {
    forall v: nat, w: nat :: Written(n, v) && Written(than, w) ==> v <= w
  }

  lemma LargestWritten(ns: seq<Number>)
    requires ns != [] && forall n :: n in ns ==> WellWritten(n)
    ensures Choice(ns) in ns
    ensures forall n :: n in ns ==> NotLarger(n, Choice(ns))
  {
    forall n, v: nat | Written(n, v)
      ensures n != "" && Suffix(n) == Some(v)
    {
      WrittenReads(n, v);
    }
    hide Written, Suffix;
    assert ns[0] in ns;
    NoneFilled(ns);
    ChoiceIsFirstLargest(ns);
  }

  /**
   * A CIF has a customer number exactly when it has rows, the empty CIF aside; with well-written numbers it is
   * that of one of its rows, and none of them is larger.
   */
  lemma ChosenIsLargest(rows: seq<ViewRow>, cif: Cif)
    ensures cif in ChoiceMap(rows) <==> cif != "" && exists r :: r in rows && r.cif == cif
    ensures cif in ChoiceMap(rows) && (forall r :: r in rows && r.cif == cif ==> WellWritten(r.number)) ==>
      && ViewRow(cif, ChoiceMap(rows)[cif]) in rows
      && forall r :: r in rows && r.cif == cif ==> NotLarger(r.number, ChoiceMap(rows)[cif])
  {
    hide WellWritten, NotLarger, Choice;
    NumbersAre(rows, cif);
    var ns := NumbersOf(rows, cif);
    forall r | r in rows && r.cif == cif
      ensures r.number in ns
    {
      assert r == ViewRow(cif, r.number);
    }
    if cif in ChoiceMap(rows) && forall r :: r in rows && r.cif == cif ==> WellWritten(r.number) {
      forall n | n in ns
        ensures WellWritten(n)
      {
        assert ViewRow(cif, n).number == n;
      }
      LargestWritten(ns);
    }
  }

  /** A CIF has an application exactly when one of its applications is disbursed, fully or partially. */
  lemma PickedExactly(apps: seq<Application>, cif: Cif)
    ensures cif in PickMap(DisbursedRows(apps)) <==> exists a :: a in apps && IsDisbursedOf(a, cif)
  {
    hide Pick, IsDisbursedOf;
    var rows := DisbursedRows(apps);
    DisbursedAre(apps, cif);
    hide DisbursedRows;
    if r :| r in rows && r.cif == cif {
      assert r == ViewRow(cif, r.number);
    }
    if a :| a in apps && IsDisbursedOf(a, cif) {
      assert ViewRow(cif, a.number) in rows;
    }
  }

  /**
   * With numbers written below 2^31 the application of a CIF is one of its disbursed ones, and none of these
   * has a larger number.
   */
  lemma PickedIsLargest(apps: seq<Application>, cif: Cif)
    requires cif in PickMap(DisbursedRows(apps))
    requires forall a :: a in apps && IsDisbursedOf(a, cif) ==> WrittenBelow(a.number, 0x8000_0000)
    ensures var picked := PickMap(DisbursedRows(apps))[cif];
      && (exists a :: a in apps && IsDisbursedOf(a, cif) && a.number == picked)
      && forall a :: a in apps && IsDisbursedOf(a, cif) ==> NotLarger(a.number, picked)
  {
    var rows := DisbursedRows(apps);
    NumbersAre(rows, cif);
    DisbursedAre(apps, cif);
    hide DisbursedRows, IsDisbursedOf, NotLarger, Pick, Choice, Numeric, Value;
    var ns := NumbersOf(rows, cif);
    var r :| r in rows && r.cif == cif;
    assert r == ViewRow(cif, r.number) && r.number in ns;
    forall n | n in ns
      ensures WellWritten(n) && Numeric(n) && Value(Tail(n)) < TWO_TO_31
    {
      BelowReads(n);
    }
    PickIsChoice(ns);
    LargestWritten(ns);
  }

  lemma BelowReads(n: Number)
    requires WrittenBelow(n, 0x8000_0000)
    ensures WellWritten(n) && Numeric(n) && Value(Tail(n)) < TWO_TO_31
  {
    var v: nat :| Written(n, v) && v < 0x8000_0000;
    WrittenReads(n, v);
  }

  method CheckCustomerBulkInstrumentDetails(apps: seq<Application>, details: seq<Instrument>)
    returns (out: seq<Instrument>)
    ensures |out| == |details|
    ensures forall i :: 0 <= i < |details| ==> Tagged(details[i], out[i], PickMap(DisbursedRows(apps)))
  {
    hide Suffix, OrZero;
    var numbers := PickApplications(apps);
    var appNumToCif := Invert(numbers);
    out := [];
    for i := 0 to |details|
      invariant |out| == i && forall k :: 0 <= k < i ==> Tagged(details[k], out[k], numbers)
    {
      var appDetail := details[i];
      if appDetail.number in appNumToCif && appNumToCif[appDetail.number] != "" {
        appDetail := appDetail.(cif := Some(appNumToCif[appDetail.number]));
      }
      out := out + [appDetail];
    }
  }
}
