/** Payment rows and the three ways `commissions3.py` merges them.

  A payment row is a Python dict from column names to cell values. Rows built
  by the HTML parser hold text such as `"70,00"`; rows read back from SQLite
  may hold numbers or `None`. A missing column is a `KeyError`, and a text
  method called on a number is an `AttributeError`, exactly where the Python
  code would raise them.
 */
module Payments {
  import opened Wrappers
  import opened Text
  import opened Decimal
  import opened Dicts
  import opened Calendar

  /** A cell value: text, a number (Python `int` or `float`) or `None`. */
  datatype Cell = Str(s: string) | Num(x: real) | Null

  /** A payment row: Python's `dict` keyed by column name. */
  type Row = map<string, Cell>

  /** `row[column]`. */
  function Get(row: Row, column: string): Result<Cell> {
    if column in row then Success(row[column]) else Failure(KeyError)
  }

  /** Python truthiness of a cell (`if value:`). */
  predicate Truthy(c: Cell) {
    match c
    case Str(s) => s != []
    case Num(x) => x != 0.0
    case Null => false
  }

  function Max(a: real, b: real): (m: real)
    ensures m >= a && m >= b && (m == a || m == b)
  {
    if b > a then b else a
  }

  // ---------------------------------------------------------------------------
  // Numbers written with a decimal comma

  /** `parse_number`: a falsy cell is 0.0; text is read with the comma as the
      decimal point, and text `float()` rejects is 0.0; a non-zero number has
      no `.replace` method. */
  function ParseNumber(c: Cell): (r: Result<real>)
    ensures !Truthy(c) ==> r == Success(0.0)
    ensures r.Failure? <==> c.Num? && c.x != 0.0
    ensures r.Failure? ==> r.error == AttributeError
  {
    match c
    case Str(s) =>
      if s == [] then Success(0.0)
      else Success(ReadFloat(ReplaceChar(s, ',', '.')).GetOr(0.0))
    case Num(x) => if x == 0.0 then Success(0.0) else Failure(AttributeError)
    case Null => Success(0.0)
  }

  /** `format_number`: two decimals with a decimal comma. */
  function FormatNumber(x: real): string {
    ReplaceChar(Fixed2(x), '.', ',')
  }

  lemma {:induction false} ParseText(s: string)
    requires s != []
    ensures ParseNumber(Str(s)) == Success(ReadFloat(ReplaceChar(s, ',', '.')).GetOr(0.0))
  {
  }

  lemma {:induction false} CommaToPoint(whole: string, fraction: string)
    requires AllDigits(whole) && AllDigits(fraction)
    ensures ReplaceChar(whole + "," + fraction, ',', '.') == whole + "." + fraction
  {
    var s := whole + "," + fraction;
    var t := whole + "." + fraction;
    forall i | 0 <= i < |s|
      ensures ReplaceChar(s, ',', '.')[i] == t[i]
    {
      if i < |whole| {
        assert s[i] == whole[i] == t[i];
      } else if i > |whole| {
        assert s[i] == fraction[i - |whole| - 1] == t[i];
      }
    }
  }

  /** Digits, a comma and two digits read as the number they denote. */
  lemma {:induction false} ParseNumberComma(whole: string, fraction: string)
    requires whole != [] && AllDigits(whole)
    requires |fraction| == 2 && AllDigits(fraction)
    ensures ParseNumber(Str(whole + "," + fraction))
         == Success(DigitsValue(whole) as real + DigitsValue(fraction) as real / 100.0)
  {
    var s := whole + "," + fraction;
    var t := whole + "." + fraction;
    var v := DigitsValue(whole) as real + DigitsValue(fraction) as real / 100.0;
    CommaToPoint(whole, fraction);
    UnsignedFixed(whole, fraction);
    assert t[0] == whole[0] && t[|t| - 1] == fraction[1];
    ReadSignedBody(t, false, t, v);
    ParseText(s);
  }

  /** A `"{:.2f}"` rendering reads back as the value rounded to cents. */
  lemma {:induction false} ParseFixed2(x: real)
    ensures ParseNumber(Str(Fixed2(x))) == Success(Round2(x))
  {
    Fixed2NoComma(x);
    ReplaceAbsent(Fixed2(x), ',', '.');
    ReadFixed2(x);
  }

  /** `format_number` and `parse_number` round-trip up to rounding to cents. */
  lemma {:induction false} ParseFormatNumber(x: real)
    ensures ParseNumber(Str(FormatNumber(x))) == Success(Round2(x))
  {
    var f := Fixed2(x);
    var g := FormatNumber(x);
    Fixed2NoComma(x);
    ReplaceBack(f, '.', ',');
    ReadFixed2(x);
    assert g != [] by {
      assert ReadFloat(f).Some?;
      assert |g| == |f|;
    }
    ParseText(g);
  }

  // ---------------------------------------------------------------------------
  // Selecting the rows of one month

  /** The month of a `"%Y-%m-%dT%H:%M:%S"` timestamp as `datetime.strptime`
      reads it, `None` where it raises `ValueError`. */
  type MonthParser = string -> Option<int>

  /** `is_matching_month`: whether the row's date falls in the month named
      `monthName`. */
  function IsMatchingMonth(fecha: Cell, monthName: string, monthOf: MonthParser): (r: Result<bool>)
    ensures r.Failure? <==> !fecha.Str? || monthOf(fecha.s).None?
    ensures r.Success? ==> (r.value <==> MonthNumber(monthName) == monthOf(fecha.s))
  {
    match fecha
    case Str(s) =>
      (match monthOf(s)
       case None => Failure(ValueError)
       case Some(m) =>
         MonthTablesInverse(m, monthName);
         Success(MonthName(m) == Some(monthName)))
    case _ => Failure(TypeError)
  }

  /** The identity of a payment: the five columns rows are grouped by. */
  datatype Key = Key(fecha: Cell, codigo: Cell, tratamiento: Cell, diente: Cell, descripcion: Cell)

  const Fecha := "Fecha"
  const Codigo := "Código"
  const Paciente := "Paciente"
  const Tratamiento := "Tratamiento"
  const Diente := "Diente"
  const Descripcion := "Descripción"
  const Realizado := "Realizado"
  const Cobrado := "Cobrado"
  const Seguro := "Seguro"
  const CosteLab := "Coste lab."
  const CosteFinan := "Coste finan."
  const ComisionPct := "Comisión%"
  const Com := "Com."
  const ImporteBruto := "Importe bruto"

  /** The five key columns of a row, looked up in order. */
  function KeyOf(row: Row): (r: Result<Key>)
    ensures r.Success? <==> Fecha in row && Codigo in row && Tratamiento in row && Diente in row && Descripcion in row
    ensures r.Failure? ==> r.error == KeyError
  {
    if Fecha in row && Codigo in row && Tratamiento in row && Diente in row && Descripcion in row then
      Success(Key(row[Fecha], row[Codigo], row[Tratamiento], row[Diente], row[Descripcion]))
    else Failure(KeyError)
  }

  /** Whether `row` belongs to the month, as the grouping loops test it. */
  function InMonth(row: Row, monthName: string, monthOf: MonthParser): Result<bool> {
    var fecha :- Get(row, Fecha);
    IsMatchingMonth(fecha, monthName, monthOf)
  }

  /** The grouping loop of `merge_entries_in_pairs` and `merge_entries`: the
      rows of the month, each with its key, in input order. */
  function Select(payments: seq<Row>, monthName: string, monthOf: MonthParser): (r: Result<seq<(Key, Row)>>)
    ensures r.Success? ==> |r.value| <= |payments|
  {
    if payments == [] then Success([])
    else
      var n := |payments| - 1;
      var init :- Select(payments[..n], monthName, monthOf);
      var p := payments[n];
      var matching :- InMonth(p, monthName, monthOf);
      if !matching then Success(init)
      else
        var key :- KeyOf(p);
        Success(init + [(key, p)])
  }

  /** The rows of the month, in input order: the reference the grouping loop
      is measured against. */
  function MonthRows(payments: seq<Row>, monthName: string, monthOf: MonthParser): seq<Row> {
    if payments == [] then []
    else
      var n := |payments| - 1;
      MonthRows(payments[..n], monthName, monthOf)
        + (if InMonth(payments[n], monthName, monthOf) == Success(true) then [payments[n]] else [])
  }

  function Rows<K>(pairs: seq<(K, Row)>): (r: seq<Row>)
    ensures |r| == |pairs|
    ensures forall i :: 0 <= i < |r| ==> r[i] == pairs[i].1
  {
    seq(|pairs|, i requires 0 <= i < |pairs| => pairs[i].1)
  }

  /** The grouping loop keeps exactly the rows of the month, in order, each
      with its own key. */
  lemma {:induction false} SelectKeepsMonth(payments: seq<Row>, monthName: string, monthOf: MonthParser, sel: seq<(Key, Row)>)
    requires Select(payments, monthName, monthOf) == Success(sel)
    ensures Rows(sel) == MonthRows(payments, monthName, monthOf)
    ensures forall i :: 0 <= i < |sel| ==> KeyOf(sel[i].1) == Success(sel[i].0)
  {
    if payments != [] {
      var n := |payments| - 1;
      var init := Select(payments[..n], monthName, monthOf).value;
      SelectKeepsMonth(payments[..n], monthName, monthOf, init);
      var p := payments[n];
      if InMonth(p, monthName, monthOf) == Success(true) {
        assert sel == init + [(KeyOf(p).value, p)];
        assert Rows(sel) == Rows(init) + [p];
      } else {
        assert sel == init;
      }
    }
  }

  /** A month name outside the twelve-name table selects nothing. */
  lemma {:induction false} SelectUnknownMonth(payments: seq<Row>, monthName: string, monthOf: MonthParser)
    requires MonthNumber(monthName).None?
    requires Select(payments, monthName, monthOf).Success?
    ensures Select(payments, monthName, monthOf).value == []
  {
    if payments != [] {
      var n := |payments| - 1;
      SelectUnknownMonth(payments[..n], monthName, monthOf);
    }
  }

  // ---------------------------------------------------------------------------
  // merge_entries_in_pairs

  /** A column read as a number by `parse_number`. */
  function Amount(row: Row, column: string): Result<real> {
    var c :- Get(row, column);
    ParseNumber(c)
  }

  /** The columns a merged pair copies from the first row of the pair. */
  const CopiedColumns: seq<string> :=
    [Fecha, Codigo, Paciente, Tratamiento, Diente, Descripcion, Seguro, CosteLab, CosteFinan, ComisionPct, Com]

  /** Whether one of `columns` is missing from `row`. */
  predicate Missing(row: Row, columns: seq<string>) {
    exists c :: c in columns && c !in row
  }

  /** The dict a merged pair builds, given its first row and the four amounts. */
  function PairRow(e1: Row, r1: real, r2: real, c1: real, c2: real): Row
    requires !Missing(e1, CopiedColumns)
  {
    var copied := map c | c in CopiedColumns :: e1[c];
    copied[Realizado := Str(Fixed2(Max(r1, r2)))]
          [Cobrado := Str(Fixed2(Max(c1, c2)))]
          [ImporteBruto := Str(Fixed2(Max(Max(r1, c1), Max(r2, c2))))]
  }

  lemma {:induction false} PairRowCopies(e1: Row, r1: real, r2: real, c1: real, c2: real)
    requires !Missing(e1, CopiedColumns)
    ensures var r := PairRow(e1, r1, r2, c1, c2);
      forall c :: c in CopiedColumns ==> c in r && r[c] == e1[c]
  {
    assert Realizado !in CopiedColumns && Cobrado !in CopiedColumns && ImporteBruto !in CopiedColumns;
  }

  /** One merged pair, the dict literal of `merge_entries_in_pairs`: the six
      leading columns of the first row, the four amounts, then the five
      trailing columns, each failure raised where the literal reaches it. */
  function MergePair(e1: Row, e2: Row): (r: Result<Row>)
    ensures r.Success? <==>
      && !Missing(e1, CopiedColumns)
      && Amount(e1, Realizado).Success? && Amount(e2, Realizado).Success?
      && Amount(e1, Cobrado).Success? && Amount(e2, Cobrado).Success?
  {
    if Missing(e1, CopiedColumns[..6]) then Failure(KeyError)
    else
      var r1 :- Amount(e1, Realizado);
      var r2 :- Amount(e2, Realizado);
      var c1 :- Amount(e1, Cobrado);
      var c2 :- Amount(e2, Cobrado);
      if Missing(e1, CopiedColumns[6..]) then Failure(KeyError)
      else
        assert CopiedColumns == CopiedColumns[..6] + CopiedColumns[6..];
        Success(PairRow(e1, r1, r2, c1, c2))
  }

  /** A merged pair copies the descriptive columns of its first row, so it
      keeps the pair's identity key. */
  lemma {:induction false} MergePairCopies(e1: Row, e2: Row, r: Row)
    requires MergePair(e1, e2) == Success(r)
    ensures forall c :: c in CopiedColumns ==> c in r && r[c] == e1[c]
    ensures KeyOf(r) == KeyOf(e1)
  {
    var r1, r2 := Amount(e1, Realizado).value, Amount(e2, Realizado).value;
    var c1, c2 := Amount(e1, Cobrado).value, Amount(e2, Cobrado).value;
    assert r == PairRow(e1, r1, r2, c1, c2);
    PairRowCopies(e1, r1, r2, c1, c2);
    assert Fecha in CopiedColumns && Codigo in CopiedColumns && Tratamiento in CopiedColumns;
    assert Diente in CopiedColumns && Descripcion in CopiedColumns;
  }

  /** A merged pair has the copied columns and the three amounts, and no
      other column. */
  lemma {:induction false} MergePairKeys(e1: Row, e2: Row, r: Row)
    requires MergePair(e1, e2) == Success(r)
    ensures forall c :: c in r <==> c in CopiedColumns || c == Realizado || c == Cobrado || c == ImporteBruto
  {
    var r1, r2 := Amount(e1, Realizado).value, Amount(e2, Realizado).value;
    var c1, c2 := Amount(e1, Cobrado).value, Amount(e2, Cobrado).value;
    assert r == PairRow(e1, r1, r2, c1, c2);
  }

  /** The amounts of a merged pair read back as the pairwise maxima rounded to
      cents, and its gross as the largest of all four amounts, which is at
      least each of the two maxima. */
  lemma {:induction false} MergePairAmounts(e1: Row, e2: Row, r: Row)
    requires MergePair(e1, e2) == Success(r)
    ensures var r1, r2 := Amount(e1, Realizado).value, Amount(e2, Realizado).value;
      Amount(r, Realizado) == Success(Round2(Max(r1, r2)))
    ensures var c1, c2 := Amount(e1, Cobrado).value, Amount(e2, Cobrado).value;
      Amount(r, Cobrado) == Success(Round2(Max(c1, c2)))
    ensures var r1, r2 := Amount(e1, Realizado).value, Amount(e2, Realizado).value;
      var c1, c2 := Amount(e1, Cobrado).value, Amount(e2, Cobrado).value;
      Amount(r, ImporteBruto) == Success(Round2(Max(Max(r1, c1), Max(r2, c2))))
    ensures Amount(r, Realizado).value <= Amount(r, ImporteBruto).value
    ensures Amount(r, Cobrado).value <= Amount(r, ImporteBruto).value
  {
    var r1, r2 := Amount(e1, Realizado).value, Amount(e2, Realizado).value;
    var c1, c2 := Amount(e1, Cobrado).value, Amount(e2, Cobrado).value;
    var g := Max(Max(r1, c1), Max(r2, c2));
    assert r == PairRow(e1, r1, r2, c1, c2);
    assert r[Realizado] == Str(Fixed2(Max(r1, r2)));
    assert r[Cobrado] == Str(Fixed2(Max(c1, c2)));
    assert r[ImporteBruto] == Str(Fixed2(g));
    ParseFixed2(Max(r1, r2));
    ParseFixed2(Max(c1, c2));
    ParseFixed2(g);
    Round2Monotone(Max(r1, r2), g);
    Round2Monotone(Max(c1, c2), g);
  }

  /** Python's `max(a, b)` on two cells: `b` when `b > a`, else `a`; text
      compares as text, numbers as numbers, anything else raises. */
  function PyMax(a: Cell, b: Cell): (r: Result<Cell>)
    ensures r.Success? <==> (a.Str? && b.Str?) || (a.Num? && b.Num?)
    ensures r.Success? ==> r.value == a || r.value == b
    ensures r.Failure? ==> r.error == TypeError
  {
    match (a, b)
    case (Str(x), Str(y)) => Success(if StrLess(x, y) then b else a)
    case (Num(x), Num(y)) => Success(if y > x then b else a)
    case _ => Failure(TypeError)
  }

  /** `"{:.2f}".format(c)`: defined on numbers only. */
  function FormatCell(c: Cell): (r: Result<string>)
    ensures r.Success? <==> c.Num?
  {
    match c
    case Num(x) => Success(Fixed2(x))
    case Str(_) => Failure(ValueError)
    case Null => Failure(TypeError)
  }

  /** The leftover row of an odd group as written: the raw cells of
      `Realizado` and `Cobrado` are compared and their larger one formatted,
      which only numbers survive. */
  function SingletonAsWritten(e: Row): (r: Result<Row>)
    ensures r.Success? ==> forall c :: c != ImporteBruto ==> (c in r.value <==> c in e) && (c in e ==> r.value[c] == e[c])
    ensures Realizado in e && Cobrado in e && e[Realizado].Str? && e[Cobrado].Str? ==> r == Failure(ValueError)
    ensures Realizado in e && Cobrado in e && e[Realizado].Num? && e[Cobrado].Num? ==>
      r == Success(e[ImporteBruto := Str(Fixed2(Max(e[Realizado].x, e[Cobrado].x)))])
  {
    var realizado :- Get(e, Realizado);
    var cobrado :- Get(e, Cobrado);
    var m :- PyMax(realizado, cobrado);
    var text :- FormatCell(m);
    Success(e[ImporteBruto := Str(text)])
  }

  /** The leftover row of an odd group as intended: the larger of its two
      amounts read by `parse_number`, as for a merged pair. */
  function SingletonCorrected(e: Row): (r: Result<Row>)
    ensures r.Success? <==> Amount(e, Realizado).Success? && Amount(e, Cobrado).Success?
    ensures r.Success? ==> forall c :: c != ImporteBruto ==> (c in r.value <==> c in e) && (c in e ==> r.value[c] == e[c])
  {
    var realizado :- Amount(e, Realizado);
    var cobrado :- Amount(e, Cobrado);
    Success(e[ImporteBruto := Str(Fixed2(Max(realizado, cobrado)))])
  }

  /** The corrected leftover row's gross reads back as the larger of its two
      amounts, rounded to cents. */
  lemma {:induction false} SingletonCorrectedGross(e: Row, r: Row)
    requires SingletonCorrected(e) == Success(r)
    ensures Amount(r, ImporteBruto) == Success(Round2(Max(Amount(e, Realizado).value, Amount(e, Cobrado).value)))
  {
    ParseFixed2(Max(Amount(e, Realizado).value, Amount(e, Cobrado).value));
  }

  /** The digits of 70 and of 0. */
  lemma {:induction false} DigitsSeventyZero()
    ensures DigitsValue("70") == 70 && DigitsValue("00") == 0 && DigitsValue("0") == 0
  {
    assert "7"[..0] == [] && "70"[..1] == "7";
    assert "0"[..0] == [] && "00"[..1] == "0";
  }

  /** `"70,00"` reads as 70. */
  lemma {:induction false} ParseSeventy()
    ensures ParseNumber(Str("70,00")) == Success(70.0)
  {
    DigitsSeventyZero();
    ParseNumberComma("70", "00");
    assert "70" + "," + "00" == "70,00";
  }

  /** `"0,00"` reads as 0. */
  lemma {:induction false} ParseZero()
    ensures ParseNumber(Str("0,00")) == Success(0.0)
  {
    DigitsSeventyZero();
    ParseNumberComma("0", "00");
    assert "0" + "," + "00" == "0,00";
  }

  /** Whole amounts are already rounded to cents. */
  lemma {:induction false} Round2Whole(n: int)
    ensures Round2(n as real) == n as real
  {
    assert RoundHalfEven(n as real * 100.0) == n * 100;
  }

  /** A leftover row with text amounts, as the HTML parser yields them:
      `"{:.2f}"` rejects the larger text, while the intended reading finds a
      gross of 70. */
  lemma {:induction false} SingletonTextAmounts()
    ensures var e := map[Realizado := Str("0,00"), Cobrado := Str("70,00")];
      && SingletonAsWritten(e) == Failure(ValueError)
      && SingletonCorrected(e).Success?
      && Amount(SingletonCorrected(e).value, ImporteBruto) == Success(70.0)
  {
    var e := map[Realizado := Str("0,00"), Cobrado := Str("70,00")];
    ParseZero();
    ParseSeventy();
    assert Amount(e, Realizado) == Success(0.0);
    assert Amount(e, Cobrado) == Success(70.0);
    SingletonCorrectedGross(e, SingletonCorrected(e).value);
    Round2Whole(70);
  }

  /** The leftover row of an odd group, as written or as intended. */
  function Leftover(corrected: bool): Row -> Result<Row> {
    if corrected then SingletonCorrected else SingletonAsWritten
  }

  /** A completion of single rows that leaves the identity key alone. */
  ghost predicate SingleKeepsKey(single: Row -> Result<Row>) {
    forall e :: single(e).Success? ==> KeyOf(single(e).value) == KeyOf(e)
  }

  /** A merge of two rows that takes the identity key of the first. */
  ghost predicate MergeKeepsKey(merge: (Row, Row) -> Result<Row>) {
    forall a, b :: merge(a, b).Success? ==> KeyOf(merge(a, b).value) == KeyOf(a)
  }

  /** The leftover row keeps its identity key: only its gross changes. */
  lemma {:induction false} LeftoverKeepsKey(corrected: bool)
    ensures SingleKeepsKey(Leftover(corrected))
  {
    assert Fecha != ImporteBruto && Codigo != ImporteBruto && Tratamiento != ImporteBruto;
    assert Diente != ImporteBruto && Descripcion != ImporteBruto;
  }

  /** A merged pair keeps the identity key of its first row. */
  lemma {:induction false} MergePairKeepsKey()
    ensures MergeKeepsKey(MergePair)
  {
    forall a, b | MergePair(a, b).Success?
      ensures KeyOf(MergePair(a, b).value) == KeyOf(a)
    {
      MergePairCopies(a, b, MergePair(a, b).value);
    }
  }

  /** The `while len(group) >= 2` loop of one group and its leftover: rows
      merged two by two from the front, an odd last row completed alone. */
  function Pairs(group: seq<Row>, merge: (Row, Row) -> Result<Row>, single: Row -> Result<Row>): (r: Result<seq<Row>>)
    ensures r.Success? ==> |r.value| == (|group| + 1) / 2
    decreases |group|
  {
    if |group| == 0 then Success([])
    else if |group| == 1 then
      var e :- single(group[0]);
      Success([e])
    else
      var m :- merge(group[0], group[1]);
      var rest :- Pairs(group[2..], merge, single);
      Success([m] + rest)
  }

  /** Every row of `rows` has identity key `k`. */
  predicate AllKeyed(rows: seq<Row>, k: Key) {
    forall i :: 0 <= i < |rows| ==> KeyOf(rows[i]) == Success(k)
  }

  /** Merging a group keeps the group's identity key on every row. */
  lemma {:induction false} PairsKeepKey(group: seq<Row>, merge: (Row, Row) -> Result<Row>, single: Row -> Result<Row>, k: Key, out: seq<Row>)
    requires MergeKeepsKey(merge) && SingleKeepsKey(single)
    requires AllKeyed(group, k)
    requires Pairs(group, merge, single) == Success(out)
    ensures AllKeyed(out, k)
    decreases |group|
  {
    if |group| == 1 {
      assert out == [single(group[0]).value];
    } else if |group| >= 2 {
      var m := merge(group[0], group[1]).value;
      var rest := Pairs(group[2..], merge, single).value;
      assert out == [m] + rest;
      assert AllKeyed(group[2..], k) by {
        forall i | 0 <= i < |group| - 2
          ensures KeyOf(group[2..][i]) == Success(k)
        {
          assert group[2..][i] == group[i + 2];
        }
      }
      PairsKeepKey(group[2..], merge, single, k, rest);
      AllKeyedCons(m, rest, k);
    }
  }

  lemma {:induction false} AllKeyedCons(m: Row, rest: seq<Row>, k: Key)
    requires KeyOf(m) == Success(k) && AllKeyed(rest, k)
    ensures AllKeyed([m] + rest, k)
  {
    forall i | 0 <= i < |rest| + 1
      ensures KeyOf(([m] + rest)[i]) == Success(k)
    {
      if i > 0 {
        assert ([m] + rest)[i] == rest[i - 1];
      }
    }
  }

  /** The groups of `keys`, each merged in pairs, in the order of `keys`. */
  function MergeGroups(sel: seq<(Key, Row)>, keys: seq<Key>, corrected: bool): Result<seq<Row>> {
    if keys == [] then Success([])
    else
      var n := |keys| - 1;
      var init :- MergeGroups(sel, keys[..n], corrected);
      var rows :- Pairs(GroupOf(sel, keys[n]), MergePair, Leftover(corrected));
      Success(init + rows)
  }

  /** `merge_entries_in_pairs`: the rows of the month grouped by identity key,
      the groups taken in first-occurrence order, each merged in pairs. With
      `corrected` false the leftover row of an odd group is completed as
      written, with `corrected` true as intended. */
  function MergeInPairs(payments: seq<Row>, monthName: string, monthOf: MonthParser, corrected: bool): Result<seq<Row>> {
    var sel :- Select(payments, monthName, monthOf);
    MergeGroups(sel, KeysOf(sel), corrected)
  }

  /** How many of `rows` have identity key `k`. */
  function CountKey(rows: seq<Row>, k: Key): (n: nat)
    ensures n <= |rows|
  {
    if rows == [] then 0
    else
      var m := |rows| - 1;
      CountKey(rows[..m], k) + (if KeyOf(rows[m]) == Success(k) then 1 else 0)
  }

  lemma {:induction false} CountKeyAppend(a: seq<Row>, b: seq<Row>, k: Key)
    ensures CountKey(a + b, k) == CountKey(a, k) + CountKey(b, k)
    decreases |b|
  {
    if b != [] {
      var m := |b| - 1;
      assert (a + b)[..|a + b| - 1] == a + b[..m];
      assert (a + b)[|a + b| - 1] == b[m];
      CountKeyAppend(a, b[..m], k);
    } else {
      assert a + b == a;
    }
  }

  lemma {:induction false} CountKeyAllKeyed(rows: seq<Row>, k: Key, k': Key)
    requires AllKeyed(rows, k')
    ensures CountKey(rows, k) == if k == k' then |rows| else 0
  {
    if rows != [] {
      var m := |rows| - 1;
      assert AllKeyed(rows[..m], k');
      CountKeyAllKeyed(rows[..m], k, k');
    }
  }

  /** A key that is counted has a row. */
  lemma {:induction false} CountKeyPositive(rows: seq<Row>, k: Key)
    requires CountKey(rows, k) > 0
    ensures exists i :: 0 <= i < |rows| && KeyOf(rows[i]) == Success(k)
  {
    var m := |rows| - 1;
    if KeyOf(rows[m]) != Success(k) {
      CountKeyPositive(rows[..m], k);
      var i :| 0 <= i < m && KeyOf(rows[..m][i]) == Success(k);
      assert rows[..m][i] == rows[i];
    }
  }

  /** Each selected row carries its own identity key. */
  predicate Keyed(sel: seq<(Key, Row)>) {
    forall i :: 0 <= i < |sel| ==> KeyOf(sel[i].1) == Success(sel[i].0)
  }

  /** The group of `k` holds exactly the selected rows of key `k`. */
  lemma {:induction false} GroupOfKeyed(sel: seq<(Key, Row)>, k: Key)
    requires Keyed(sel)
    ensures AllKeyed(GroupOf(sel, k), k)
    ensures |GroupOf(sel, k)| == CountKey(Rows(sel), k)
  {
    if sel != [] {
      var n := |sel| - 1;
      assert Keyed(sel[..n]);
      GroupOfKeyed(sel[..n], k);
      assert Rows(sel)[..n] == Rows(sel[..n]);
    }
  }

  /** The rows of `rows` with identity key `k`, in order. */
  function RowsWithKey(rows: seq<Row>, k: Key): seq<Row> {
    if rows == [] then []
    else
      var m := |rows| - 1;
      RowsWithKey(rows[..m], k) + (if KeyOf(rows[m]) == Success(k) then [rows[m]] else [])
  }

  /** The group of `k` is the selected rows of key `k`, in order. */
  lemma {:induction false} GroupOfRows(sel: seq<(Key, Row)>, k: Key)
    requires Keyed(sel)
    ensures GroupOf(sel, k) == RowsWithKey(Rows(sel), k)
  {
    if sel != [] {
      var n := |sel| - 1;
      assert Keyed(sel[..n]);
      GroupOfRows(sel[..n], k);
      assert Rows(sel)[..n] == Rows(sel[..n]);
    }
  }

  /** Merging the groups of distinct keys yields, for each key, half its
      group rounded up, and nothing for the other keys. */
  lemma {:induction false} MergeGroupsCount(sel: seq<(Key, Row)>, keys: seq<Key>, corrected: bool, out: seq<Row>, k: Key)
    requires Keyed(sel)
    requires forall i, j :: 0 <= i < j < |keys| ==> keys[i] != keys[j]
    requires MergeGroups(sel, keys, corrected) == Success(out)
    ensures CountKey(out, k) == if k in keys then (|GroupOf(sel, k)| + 1) / 2 else 0
  {
    if keys != [] {
      var n := |keys| - 1;
      var init := MergeGroups(sel, keys[..n], corrected).value;
      var rows := Pairs(GroupOf(sel, keys[n]), MergePair, Leftover(corrected)).value;
      assert out == init + rows;
      MergeGroupsCount(sel, keys[..n], corrected, init, k);
      CountKeyAppend(init, rows, k);
      GroupOfKeyed(sel, keys[n]);
      MergePairKeepsKey();
      LeftoverKeepsKey(corrected);
      PairsKeepKey(GroupOf(sel, keys[n]), MergePair, Leftover(corrected), keys[n], rows);
      CountKeyAllKeyed(rows, k, keys[n]);
      assert k in keys <==> k in keys[..n] || k == keys[n];
      assert keys[n] !in keys[..n];
    }
  }

  /** `merge_entries_in_pairs` yields, for every identity key, half the rows
      of the month with that key, rounded up: two rows merge into one and an
      odd one is kept. */
  lemma {:induction false} MergeInPairsCount(payments: seq<Row>, monthName: string, monthOf: MonthParser, corrected: bool, out: seq<Row>, k: Key)
    requires MergeInPairs(payments, monthName, monthOf, corrected) == Success(out)
    ensures CountKey(out, k) == (CountKey(MonthRows(payments, monthName, monthOf), k) + 1) / 2
  {
    var sel := Select(payments, monthName, monthOf).value;
    SelectKeepsMonth(payments, monthName, monthOf, sel);
    MergeGroupsCount(sel, KeysOf(sel), corrected, out, k);
    GroupOfKeyed(sel, k);
    GroupOfEmpty(sel, k);
  }
}
