/** `merge_entries_by_month_and_criteria` (commissions3.py): the payments of a
  month, dated `dd/mm/yy`, folded into one row per identity key. The first
  row of each key is the base of its output row; `Realizado` and `Cobrado`
  become the largest amounts of the key, `Importe bruto` the larger amount
  of the base row alone.
 */
module Criteria {
  import opened Wrappers
  import opened Text
  import opened Decimal
  import opened Calendar
  import opened Payments

  /** The local `parse_number` of this merge, `float(value.replace(",", "."))`:
      text that is no number raises `ValueError`, a cell that is no text has
      no `replace`. */
  function StrictNumber(c: Cell): (r: Result<real>)
    ensures r.Success? <==> c.Str? && ReadFloat(ReplaceChar(c.s, ',', '.')).Some?
    ensures r.Success? ==> r.value == ReadFloat(ReplaceChar(c.s, ',', '.')).value
    ensures r.Failure? ==> r.error == (if c.Str? then ValueError else AttributeError)
  {
    match c
    case Str(s) =>
      (match ReadFloat(ReplaceChar(s, ',', '.'))
       case Some(x) => Success(x)
       case None => Failure(ValueError))
    case _ => Failure(AttributeError)
  }

  /** A column of a row read by the strict parser. */
  function StrictAmount(row: Row, column: string): Result<real> {
    var c :- Get(row, column);
    StrictNumber(c)
  }

  /** The month number of a Spanish month name, capitalised first; an unknown
      name raises `ValueError`. */
  function TargetMonth(monthName: string): (r: Result<int>)
    ensures r.Success? <==> MonthNumber(Capitalize(monthName)).Some?
    ensures r.Success? ==> r.value == MonthNumber(Capitalize(monthName)).value && 1 <= r.value <= 12
    ensures r.Failure? ==> r.error == ValueError
  {
    match MonthNumber(Capitalize(monthName))
    case Some(m) => Success(m)
    case None => Failure(ValueError)
  }

  /** Whether the `Fecha` of `entry`, read by `strptime(..., "%d/%m/%y")`
      (the parameter `monthOf`, which yields the month), is in the month. */
  function InTargetMonth(entry: Row, target: int, monthOf: MonthParser): (r: Result<bool>)
    ensures r.Success? <==> Fecha in entry && entry[Fecha].Str? && monthOf(entry[Fecha].s).Some?
    ensures r.Success? ==> (r.value <==> monthOf(entry[Fecha].s) == Some(target))
  {
    var fecha :- Get(entry, Fecha);
    if !fecha.Str? then Failure(TypeError)
    else
      match monthOf(fecha.s)
      case None => Failure(ValueError)
      case Some(m) => Success(m == target)
  }

  /** The list comprehension that keeps the entries of the month, in order. */
  function MonthEntries(entries: seq<Row>, target: int, monthOf: MonthParser): (r: Result<seq<Row>>)
    ensures r.Success? <==> forall i :: 0 <= i < |entries| ==> InTargetMonth(entries[i], target, monthOf).Success?
    ensures r.Success? ==> forall e :: e in r.value <==> e in entries && InTargetMonth(e, target, monthOf) == Success(true)
  {
    if entries == [] then Success([])
    else
      var keep :- InTargetMonth(entries[0], target, monthOf);
      var rest :- MonthEntries(entries[1..], target, monthOf);
      Success(if keep then [entries[0]] + rest else rest)
  }

  /** The filter's result for a row `e` whose month test gave `keep`, in
      front of the result `rest` for the rows after it. */
  function Prepend(keep: Result<bool>, e: Row, rest: Result<seq<Row>>): Result<seq<Row>> {
    match keep
    case Failure(err) => Failure(err)
    case Success(k) =>
      match rest
      case Failure(err) => Failure(err)
      case Success(kept) => Success(if k then [e] + kept else kept)
  }

  /** The filter's result for two runs of rows from the results of each run:
      the first error, else the rows kept from both, in order. */
  function Joined(first: Result<seq<Row>>, second: Result<seq<Row>>): Result<seq<Row>> {
    match first
    case Failure(err) => Failure(err)
    case Success(u) =>
      match second
      case Failure(err) => Failure(err)
      case Success(v) => Success(u + v)
  }

  lemma PrependJoined(keep: Result<bool>, e: Row, first: Result<seq<Row>>, second: Result<seq<Row>>)
    ensures Prepend(keep, e, Joined(first, second)) == Joined(Prepend(keep, e, first), second)
  {
    if keep.Success? && keep.value && first.Success? && second.Success? {
      assert [e] + (first.value + second.value) == ([e] + first.value) + second.value;
    }
  }

  /** One step of the filter: the head row's test comes first, then the
      rest, and a kept head stays in front. */
  lemma MonthEntriesCons(e: Row, rest: seq<Row>, target: int, monthOf: MonthParser)
    ensures MonthEntries([e] + rest, target, monthOf) ==
      Prepend(InTargetMonth(e, target, monthOf), e, MonthEntries(rest, target, monthOf))
  {
    assert ([e] + rest)[0] == e;
    assert ([e] + rest)[1..] == rest;
  }

  /** The filter of a concatenation is the join of the filters of its parts. */
  lemma {:induction false} MonthEntriesJoined(a: seq<Row>, b: seq<Row>, target: int, monthOf: MonthParser)
    ensures MonthEntries(a + b, target, monthOf) == Joined(MonthEntries(a, target, monthOf), MonthEntries(b, target, monthOf))
  {
    if a == [] {
      assert a + b == b;
      assert MonthEntries(a, target, monthOf) == Success([]);
      if MonthEntries(b, target, monthOf).Success? {
        assert [] + MonthEntries(b, target, monthOf).value == MonthEntries(b, target, monthOf).value;
      }
    } else {
      var x, tail := a[0], a[1..];
      assert a == [x] + tail;
      assert a + b == [x] + (tail + b);
      MonthEntriesJoined(tail, b, target, monthOf);
      MonthEntriesCons(x, tail, target, monthOf);
      MonthEntriesCons(x, tail + b, target, monthOf);
      PrependJoined(InTargetMonth(x, target, monthOf), x, MonthEntries(tail, target, monthOf), MonthEntries(b, target, monthOf));
    }
  }

  /** The filter keeps input order and repeats: on a concatenation it fails
      with the first failure of the two parts, and otherwise returns the
      rows kept from the first part followed by those kept from the second. */
  lemma MonthEntriesAppend(a: seq<Row>, b: seq<Row>, target: int, monthOf: MonthParser)
    ensures MonthEntries(a, target, monthOf).Failure? ==>
      MonthEntries(a + b, target, monthOf) == Failure(MonthEntries(a, target, monthOf).error)
    ensures MonthEntries(a, target, monthOf).Success? && MonthEntries(b, target, monthOf).Failure? ==>
      MonthEntries(a + b, target, monthOf) == Failure(MonthEntries(b, target, monthOf).error)
    ensures MonthEntries(a, target, monthOf).Success? && MonthEntries(b, target, monthOf).Success? ==>
      MonthEntries(a + b, target, monthOf) == Success(MonthEntries(a, target, monthOf).value + MonthEntries(b, target, monthOf).value)
  {
    MonthEntriesJoined(a, b, target, monthOf);
  }

  /** A single row is kept exactly when its date parses into the month, and
      an unreadable date is the error of the whole filter. */
  lemma MonthEntriesOne(e: Row, target: int, monthOf: MonthParser)
    ensures InTargetMonth(e, target, monthOf).Failure? ==>
      MonthEntries([e], target, monthOf) == Failure(InTargetMonth(e, target, monthOf).error)
    ensures InTargetMonth(e, target, monthOf).Success? ==>
      MonthEntries([e], target, monthOf) == Success(if InTargetMonth(e, target, monthOf).value then [e] else [])
  {
    assert [e][1..] == [];
    assert [e] + [] == [e];
  }

  /** The `and` chain comparing the five key columns of two rows, each
      lookup made only when the earlier columns agree. */
  function SameKey(e1: Row, e2: Row): (r: Result<bool>)
    ensures KeyOf(e1).Success? && KeyOf(e2).Success? ==> r == Success(KeyOf(e1) == KeyOf(e2))
    ensures r.Failure? ==> r.error == KeyError
  {
    var f1 :- Get(e1, Fecha);
    var f2 :- Get(e2, Fecha);
    if f1 != f2 then Success(false)
    else
      var c1 :- Get(e1, Codigo);
      var c2 :- Get(e2, Codigo);
      if c1 != c2 then Success(false)
      else
        var t1 :- Get(e1, Tratamiento);
        var t2 :- Get(e2, Tratamiento);
        if t1 != t2 then Success(false)
        else
          var d1 :- Get(e1, Diente);
          var d2 :- Get(e2, Diente);
          if d1 != d2 then Success(false)
          else
            var s1 :- Get(e1, Descripcion);
            var s2 :- Get(e2, Descripcion);
            Success(s1 == s2)
  }

  /** The inner loop over the later unprocessed rows: the rows with the key
      of `e1` raise the running maxima, the others stay for later rounds. */
  function Scan(e1: Row, rest: seq<Row>, maxR: real, maxC: real): (r: Result<(real, real, seq<Row>)>)
    ensures r.Success? ==> |r.value.2| <= |rest|
    decreases |rest|
  {
    if rest == [] then Success((maxR, maxC, []))
    else
      var same :- SameKey(e1, rest[0]);
      if same then
        var realizado :- StrictAmount(rest[0], Realizado);
        var cobrado :- StrictAmount(rest[0], Cobrado);
        Scan(e1, rest[1..], Max(maxR, realizado), Max(maxC, cobrado))
      else
        var t :- Scan(e1, rest[1..], maxR, maxC);
        Success((t.0, t.1, [rest[0]] + t.2))
  }

  /** The output row of a key: the base row with the two maxima and the
      base row's own gross, each written with a decimal comma. */
  function Merged(base: Row, maxR: real, maxC: real, gross: real): Row {
    base[Realizado := Str(FormatNumber(maxR))][Cobrado := Str(FormatNumber(maxC))][ImporteBruto := Str(FormatNumber(gross))]
  }

  /** The outer loop: the first unprocessed row opens a key, the scan closes
      it, and the rows of other keys go round again. */
  function Fold(rows: seq<Row>): Result<seq<Row>>
    decreases |rows|
  {
    if rows == [] then Success([])
    else
      var e1 := rows[0];
      var realizado :- StrictAmount(e1, Realizado);
      var cobrado :- StrictAmount(e1, Cobrado);
      var t :- Scan(e1, rows[1..], realizado, cobrado);
      var more :- Fold(t.2);
      Success([Merged(e1, t.0, t.1, Max(realizado, cobrado))] + more)
  }

  /** `merge_entries_by_month_and_criteria`. */
  function MergeByCriteria(entries: seq<Row>, monthName: string, monthOf: MonthParser): (r: Result<seq<Row>>)
    ensures MonthNumber(Capitalize(monthName)).None? ==> r == Failure(ValueError)
  {
    var target :- TargetMonth(monthName);
    var rows :- MonthEntries(entries, target, monthOf);
    Fold(rows)
  }

  // ---------------------------------------------------------------------------
  // Reference definitions

  /** Every row carries the five key columns. */
  predicate HaveKeys(rows: seq<Row>) {
    forall i :: 0 <= i < |rows| ==> KeyOf(rows[i]).Success?
  }

  /** The rows whose key is not `k`, in order. */
  function WithoutKey(rows: seq<Row>, k: Key): (r: seq<Row>)
    ensures |r| <= |rows|
    ensures forall e :: e in r <==> e in rows && KeyOf(e) != Success(k)
  {
    if rows == [] then []
    else (if KeyOf(rows[0]) == Success(k) then [] else [rows[0]]) + WithoutKey(rows[1..], k)
  }

  /** Whether some row has key `k`. */
  predicate HasKey(rows: seq<Row>, k: Key) {
    exists e :: e in rows && KeyOf(e) == Success(k)
  }

  /** The index of the first row with key `k`. */
  function FirstIndex(rows: seq<Row>, k: Key): (i: nat)
    requires HasKey(rows, k)
    ensures i < |rows| && KeyOf(rows[i]) == Success(k)
    ensures forall j :: 0 <= j < i ==> KeyOf(rows[j]) != Success(k)
  {
    if KeyOf(rows[0]) == Success(k) then 0
    else
      assert HasKey(rows[1..], k) by {
        var e :| e in rows && KeyOf(e) == Success(k);
        assert rows == [rows[0]] + rows[1..];
      }
      1 + FirstIndex(rows[1..], k)
  }

  /** `m` is the largest `column` amount among the rows with key `k`. */
  ghost predicate Peak(rows: seq<Row>, k: Key, column: string, m: real) {
    && (forall e :: e in rows && KeyOf(e) == Success(k) ==> StrictAmount(e, column).Success? && StrictAmount(e, column).value <= m)
    && (exists e :: e in rows && KeyOf(e) == Success(k) && StrictAmount(e, column) == Success(m))
  }

  // ---------------------------------------------------------------------------
  // Properties

  /** With every key present, the scan keeps exactly the rows of other keys,
      in order. */
  lemma {:induction false} ScanRest(e1: Row, rest: seq<Row>, maxR: real, maxC: real, t: (real, real, seq<Row>))
    requires KeyOf(e1).Success? && HaveKeys(rest)
    requires Scan(e1, rest, maxR, maxC) == Success(t)
    ensures t.2 == WithoutKey(rest, KeyOf(e1).value)
    decreases |rest|
  {
    if rest != [] {
      assert HaveKeys(rest[1..]) by {
        forall i | 0 <= i < |rest| - 1 ensures KeyOf(rest[1..][i]).Success? {
          assert rest[1..][i] == rest[i + 1];
        }
      }
      if KeyOf(rest[0]) == KeyOf(e1) {
        var realizado := StrictAmount(rest[0], Realizado).value;
        var cobrado := StrictAmount(rest[0], Cobrado).value;
        ScanRest(e1, rest[1..], Max(maxR, realizado), Max(maxC, cobrado), t);
      } else {
        var u := Scan(e1, rest[1..], maxR, maxC).value;
        ScanRest(e1, rest[1..], maxR, maxC, u);
      }
    }
  }

  /** With every key present, the scan succeeds exactly when every row of
      the key of `e1` has two readable amounts. */
  lemma {:induction false} ScanSucceeds(e1: Row, rest: seq<Row>, maxR: real, maxC: real)
    requires KeyOf(e1).Success? && HaveKeys(rest)
    ensures Scan(e1, rest, maxR, maxC).Success? <==>
      forall e :: e in rest && KeyOf(e) == KeyOf(e1) ==> StrictAmount(e, Realizado).Success? && StrictAmount(e, Cobrado).Success?
    decreases |rest|
  {
    if rest != [] {
      assert rest == [rest[0]] + rest[1..];
      assert HaveKeys(rest[1..]) by {
        forall i | 0 <= i < |rest| - 1 ensures KeyOf(rest[1..][i]).Success? {
          assert rest[1..][i] == rest[i + 1];
        }
      }
      if KeyOf(rest[0]) == KeyOf(e1) && StrictAmount(rest[0], Realizado).Success? && StrictAmount(rest[0], Cobrado).Success? {
        var realizado := StrictAmount(rest[0], Realizado).value;
        var cobrado := StrictAmount(rest[0], Cobrado).value;
        ScanSucceeds(e1, rest[1..], Max(maxR, realizado), Max(maxC, cobrado));
      } else if KeyOf(rest[0]) != KeyOf(e1) {
        ScanSucceeds(e1, rest[1..], maxR, maxC);
      }
    }
  }

  /** With every key present, the scan ends with the largest `Realizado` and
      `Cobrado` of the key, counting the running values it started from. */
  lemma {:induction false} ScanMaxima(e1: Row, rest: seq<Row>, maxR: real, maxC: real, t: (real, real, seq<Row>))
    requires KeyOf(e1).Success? && HaveKeys(rest)
    requires Scan(e1, rest, maxR, maxC) == Success(t)
    ensures maxR <= t.0 && maxC <= t.1
    ensures forall e :: e in rest && KeyOf(e) == KeyOf(e1) ==>
      && StrictAmount(e, Realizado).Success? && StrictAmount(e, Realizado).value <= t.0
      && StrictAmount(e, Cobrado).Success? && StrictAmount(e, Cobrado).value <= t.1
    ensures t.0 == maxR || exists e :: e in rest && KeyOf(e) == KeyOf(e1) && StrictAmount(e, Realizado) == Success(t.0)
    ensures t.1 == maxC || exists e :: e in rest && KeyOf(e) == KeyOf(e1) && StrictAmount(e, Cobrado) == Success(t.1)
    decreases |rest|
  {
    if rest != [] {
      assert rest == [rest[0]] + rest[1..];
      assert HaveKeys(rest[1..]) by {
        forall i | 0 <= i < |rest| - 1 ensures KeyOf(rest[1..][i]).Success? {
          assert rest[1..][i] == rest[i + 1];
        }
      }
      if KeyOf(rest[0]) == KeyOf(e1) {
        var realizado := StrictAmount(rest[0], Realizado).value;
        var cobrado := StrictAmount(rest[0], Cobrado).value;
        ScanMaxima(e1, rest[1..], Max(maxR, realizado), Max(maxC, cobrado), t);
      } else {
        var u := Scan(e1, rest[1..], maxR, maxC).value;
        ScanMaxima(e1, rest[1..], maxR, maxC, u);
      }
    }
  }

  /** The rows left for later rounds carry keys when all rows do. */
  lemma {:induction false} WithoutKeyHaveKeys(rows: seq<Row>, k: Key)
    requires HaveKeys(rows)
    ensures HaveKeys(WithoutKey(rows, k))
  {
    var w := WithoutKey(rows, k);
    forall i | 0 <= i < |w| ensures KeyOf(w[i]).Success? {
      assert w[i] in rows;
      var j :| 0 <= j < |rows| && rows[j] == w[i];
    }
  }

  lemma {:induction false} HaveKeysTail(rows: seq<Row>)
    requires rows != [] && HaveKeys(rows)
    ensures KeyOf(rows[0]).Success? && HaveKeys(rows[1..])
  {
    forall i | 0 <= i < |rows| - 1 ensures KeyOf(rows[1..][i]).Success? {
      assert rows[1..][i] == rows[i + 1];
    }
  }

  /** One round of the outer loop, spelled out. */
  lemma {:induction false} FoldStep(rows: seq<Row>, out: seq<Row>)
    requires rows != [] && Fold(rows) == Success(out)
    ensures StrictAmount(rows[0], Realizado).Success? && StrictAmount(rows[0], Cobrado).Success?
    ensures var realizado, cobrado := StrictAmount(rows[0], Realizado).value, StrictAmount(rows[0], Cobrado).value;
      && Scan(rows[0], rows[1..], realizado, cobrado).Success?
      && var t := Scan(rows[0], rows[1..], realizado, cobrado).value;
      && Fold(t.2).Success?
      && out == [Merged(rows[0], t.0, t.1, Max(realizado, cobrado))] + Fold(t.2).value
  {
  }

  /** With every key present, the merge succeeds exactly when every row has
      two readable amounts: each row is read once, as a base or as a match. */
  lemma {:induction false} FoldSucceeds(rows: seq<Row>)
    requires HaveKeys(rows)
    ensures Fold(rows).Success? <==>
      forall e :: e in rows ==> StrictAmount(e, Realizado).Success? && StrictAmount(e, Cobrado).Success?
    decreases |rows|
  {
    if rows != [] {
      var e1 := rows[0];
      assert rows == [e1] + rows[1..];
      HaveKeysTail(rows);
      if StrictAmount(e1, Realizado).Success? && StrictAmount(e1, Cobrado).Success? {
        var realizado, cobrado := StrictAmount(e1, Realizado).value, StrictAmount(e1, Cobrado).value;
        ScanSucceeds(e1, rows[1..], realizado, cobrado);
        if Scan(e1, rows[1..], realizado, cobrado).Success? {
          var t := Scan(e1, rows[1..], realizado, cobrado).value;
          ScanRest(e1, rows[1..], realizado, cobrado, t);
          WithoutKeyHaveKeys(rows[1..], KeyOf(e1).value);
          FoldSucceeds(t.2);
        }
      }
    }
  }

  /** The merged row of a key keeps the key of its base row. */
  lemma {:induction false} MergedKey(base: Row, maxR: real, maxC: real, gross: real)
    ensures KeyOf(Merged(base, maxR, maxC, gross)) == KeyOf(base)
  {
    assert Fecha != Realizado && Fecha != Cobrado && Fecha != ImporteBruto;
    assert Codigo != Realizado && Codigo != Cobrado && Codigo != ImporteBruto;
    assert Tratamiento != Realizado && Tratamiento != Cobrado && Tratamiento != ImporteBruto;
    assert Diente != Realizado && Diente != Cobrado && Diente != ImporteBruto;
    assert Descripcion != Realizado && Descripcion != Cobrado && Descripcion != ImporteBruto;
  }

  /** One round of the outer loop with every key present: the merged row of
      the first key, then the merge of the rows of other keys. */
  lemma {:induction false} FoldShape(rows: seq<Row>, out: seq<Row>)
    requires rows != [] && HaveKeys(rows) && Fold(rows) == Success(out)
    ensures KeyOf(rows[0]).Success?
    ensures var w := WithoutKey(rows[1..], KeyOf(rows[0]).value);
      && HaveKeys(w) && Fold(w).Success?
      && out[1..] == Fold(w).value
      && out != [] && KeyOf(out[0]) == KeyOf(rows[0])
  {
    var e1 := rows[0];
    HaveKeysTail(rows);
    FoldStep(rows, out);
    var realizado, cobrado := StrictAmount(e1, Realizado).value, StrictAmount(e1, Cobrado).value;
    var t := Scan(e1, rows[1..], realizado, cobrado).value;
    ScanRest(e1, rows[1..], realizado, cobrado, t);
    WithoutKeyHaveKeys(rows[1..], KeyOf(e1).value);
    MergedKey(e1, t.0, t.1, Max(realizado, cobrado));
  }

  /** Every output row has a key of the input. */
  ghost predicate KeysFrom(rows: seq<Row>, out: seq<Row>) {
    forall i :: 0 <= i < |out| ==> KeyOf(out[i]).Success? && HasKey(rows, KeyOf(out[i]).value)
  }

  /** Every key of the input has an output row. */
  ghost predicate KeysCovered(rows: seq<Row>, out: seq<Row>) {
    forall k :: HasKey(rows, k) ==> exists i :: 0 <= i < |out| && KeyOf(out[i]) == Success(k)
  }

  /** Output keys come from the input: carried over from the later rounds. */
  lemma {:induction false} KeysFromCons(rows: seq<Row>, out: seq<Row>, k0: Key)
    requires rows != [] && out != [] && KeyOf(rows[0]) == Success(k0) && KeyOf(out[0]) == Success(k0)
    requires KeysFrom(WithoutKey(rows[1..], k0), out[1..])
    ensures KeysFrom(rows, out)
  {
    var w := WithoutKey(rows[1..], k0);
    assert rows == [rows[0]] + rows[1..];
    forall i | 0 <= i < |out|
      ensures KeyOf(out[i]).Success? && HasKey(rows, KeyOf(out[i]).value)
    {
      if i > 0 {
        assert out[i] == out[1..][i - 1];
        var e :| e in w && KeyOf(e) == KeyOf(out[i]);
        assert e in rows;
      }
    }
  }

  /** Input keys reach the output: carried over from the later rounds. */
  lemma {:induction false} KeysCoveredCons(rows: seq<Row>, out: seq<Row>, k0: Key)
    requires rows != [] && out != [] && KeyOf(rows[0]) == Success(k0) && KeyOf(out[0]) == Success(k0)
    requires KeysCovered(WithoutKey(rows[1..], k0), out[1..])
    ensures KeysCovered(rows, out)
  {
    var w := WithoutKey(rows[1..], k0);
    forall k | HasKey(rows, k)
      ensures exists i :: 0 <= i < |out| && KeyOf(out[i]) == Success(k)
    {
      if k != k0 {
        var e :| e in rows && KeyOf(e) == Success(k);
        assert rows == [rows[0]] + rows[1..];
        assert e in w;
        var i :| 0 <= i < |out[1..]| && KeyOf(out[1..][i]) == Success(k);
        assert out[i + 1] == out[1..][i];
      } else {
        assert KeyOf(out[0]) == Success(k);
      }
    }
  }

  /** With every key present, the merge yields a row for every key of its
      input and for no other key. */
  lemma {:induction false} FoldKeys(rows: seq<Row>, out: seq<Row>)
    requires HaveKeys(rows) && Fold(rows) == Success(out)
    ensures KeysFrom(rows, out) && KeysCovered(rows, out)
    decreases |rows|
  {
    if rows != [] {
      FoldShape(rows, out);
      var w := WithoutKey(rows[1..], KeyOf(rows[0]).value);
      FoldKeys(w, out[1..]);
      KeysFromCons(rows, out, KeyOf(rows[0]).value);
      KeysCoveredCons(rows, out, KeyOf(rows[0]).value);
    }
  }

  /** The first row of `k` after a first row of another key. */
  lemma {:induction false} FirstIndexTail(rows: seq<Row>, k: Key)
    requires HasKey(rows, k) && KeyOf(rows[0]) != Success(k)
    ensures HasKey(rows[1..], k) && FirstIndex(rows, k) == 1 + FirstIndex(rows[1..], k)
  {
    var e :| e in rows && KeyOf(e) == Success(k);
    assert rows == [rows[0]] + rows[1..];
  }

  /** Dropping the rows of one key keeps the order of first occurrences of
      the other keys. */
  lemma {:induction false} FirstIndexWithout(rows: seq<Row>, k0: Key, k: Key, k': Key)
    requires k != k0 && k' != k0
    requires HasKey(WithoutKey(rows, k0), k) && HasKey(WithoutKey(rows, k0), k')
    ensures HasKey(rows, k) && HasKey(rows, k')
    ensures FirstIndex(WithoutKey(rows, k0), k) < FirstIndex(WithoutKey(rows, k0), k')
        <==> FirstIndex(rows, k) < FirstIndex(rows, k')
    decreases |rows|, 1
  {
    var w := WithoutKey(rows, k0);
    var e :| e in w && KeyOf(e) == Success(k);
    var e' :| e' in w && KeyOf(e') == Success(k');
    assert e in rows && e' in rows;
    if KeyOf(rows[0]) == Success(k0) {
      FirstIndexWithoutDropped(rows, k0, k, k');
    } else if KeyOf(rows[0]) == Success(k) || KeyOf(rows[0]) == Success(k') {
      assert w == [rows[0]] + WithoutKey(rows[1..], k0);
      assert FirstIndex(w, k) == 0 <==> FirstIndex(rows, k) == 0;
      assert FirstIndex(w, k') == 0 <==> FirstIndex(rows, k') == 0;
    } else {
      FirstIndexWithoutKept(rows, k0, k, k');
    }
  }

  /** `FirstIndexWithout` when the first row has the dropped key. */
  lemma {:induction false} FirstIndexWithoutDropped(rows: seq<Row>, k0: Key, k: Key, k': Key)
    requires k != k0 && k' != k0 && rows != [] && KeyOf(rows[0]) == Success(k0)
    requires HasKey(WithoutKey(rows, k0), k) && HasKey(WithoutKey(rows, k0), k')
    requires HasKey(rows, k) && HasKey(rows, k')
    ensures FirstIndex(WithoutKey(rows, k0), k) < FirstIndex(WithoutKey(rows, k0), k')
        <==> FirstIndex(rows, k) < FirstIndex(rows, k')
    decreases |rows|, 0
  {
    assert WithoutKey(rows, k0) == WithoutKey(rows[1..], k0);
    FirstIndexTail(rows, k);
    FirstIndexTail(rows, k');
    FirstIndexWithout(rows[1..], k0, k, k');
  }

  /** `FirstIndexWithout` when the first row has a third key, kept. */
  lemma {:induction false} FirstIndexWithoutKept(rows: seq<Row>, k0: Key, k: Key, k': Key)
    requires k != k0 && k' != k0 && rows != []
    requires KeyOf(rows[0]) != Success(k0) && KeyOf(rows[0]) != Success(k) && KeyOf(rows[0]) != Success(k')
    requires HasKey(WithoutKey(rows, k0), k) && HasKey(WithoutKey(rows, k0), k')
    requires HasKey(rows, k) && HasKey(rows, k')
    ensures FirstIndex(WithoutKey(rows, k0), k) < FirstIndex(WithoutKey(rows, k0), k')
        <==> FirstIndex(rows, k) < FirstIndex(rows, k')
    decreases |rows|, 0
  {
    var w := WithoutKey(rows, k0);
    assert w == [rows[0]] + WithoutKey(rows[1..], k0);
    FirstIndexTail(rows, k);
    FirstIndexTail(rows, k');
    FirstIndexTail(w, k);
    FirstIndexTail(w, k');
    assert w[1..] == WithoutKey(rows[1..], k0);
    FirstIndexWithout(rows[1..], k0, k, k');
  }

  /** The output rows follow the first occurrences of their keys. */
  ghost predicate InFirstOrder(rows: seq<Row>, out: seq<Row>)
    requires KeysFrom(rows, out)
  {
    forall i, j :: 0 <= i < j < |out| ==> FirstIndex(rows, KeyOf(out[i]).value) < FirstIndex(rows, KeyOf(out[j]).value)
  }

  /** The order carries over from the later rounds to the whole merge. */
  lemma {:induction false} OrderCons(rows: seq<Row>, out: seq<Row>, k0: Key)
    requires rows != [] && out != [] && KeyOf(rows[0]) == Success(k0) && KeyOf(out[0]) == Success(k0)
    requires KeysFrom(WithoutKey(rows[1..], k0), out[1..]) && KeysFrom(rows, out)
    requires InFirstOrder(WithoutKey(rows[1..], k0), out[1..])
    ensures InFirstOrder(rows, out)
  {
    var w := WithoutKey(rows[1..], k0);
    var more := out[1..];
    forall i, j | 0 <= i < j < |out|
      ensures FirstIndex(rows, KeyOf(out[i]).value) < FirstIndex(rows, KeyOf(out[j]).value)
    {
      var kj := KeyOf(out[j]).value;
      assert out[j] == more[j - 1];
      assert kj != k0 by {
        var e :| e in w && KeyOf(e) == Success(kj);
      }
      FirstIndexTail(rows, kj);
      if i > 0 {
        var ki := KeyOf(out[i]).value;
        assert out[i] == more[i - 1];
        assert ki != k0 by {
          var e :| e in w && KeyOf(e) == Success(ki);
        }
        FirstIndexTail(rows, ki);
        assert FirstIndex(w, ki) < FirstIndex(w, kj);
        FirstIndexWithout(rows[1..], k0, ki, kj);
      }
    }
  }

  /** With every key present, the merge lists its rows in the order of the
      first occurrences of their keys; so no key appears twice. */
  lemma {:induction false} FoldOrder(rows: seq<Row>, out: seq<Row>)
    requires HaveKeys(rows) && Fold(rows) == Success(out)
    ensures KeysFrom(rows, out) && InFirstOrder(rows, out)
    decreases |rows|
  {
    FoldKeys(rows, out);
    if rows != [] {
      FoldShape(rows, out);
      var w := WithoutKey(rows[1..], KeyOf(rows[0]).value);
      FoldOrder(w, out[1..]);
      OrderCons(rows, out, KeyOf(rows[0]).value);
    }
  }

  /** `row` is the merged row of its key: the first row of the key with the
      largest amounts of the key and the first row's own gross. */
  ghost predicate MergesKey(rows: seq<Row>, row: Row) {
    && KeyOf(row).Success? && HasKey(rows, KeyOf(row).value)
    && var k := KeyOf(row).value;
    && var base := rows[FirstIndex(rows, k)];
    && StrictAmount(base, Realizado).Success? && StrictAmount(base, Cobrado).Success?
    && var gross := Max(StrictAmount(base, Realizado).value, StrictAmount(base, Cobrado).value);
    && exists maxR, maxC :: Peak(rows, k, Realizado, maxR) && Peak(rows, k, Cobrado, maxC) && row == Merged(base, maxR, maxC, gross)
  }

  /** The first output row merges the key of the first input row. */
  lemma {:induction false} HeadMerges(rows: seq<Row>, out: seq<Row>)
    requires rows != [] && HaveKeys(rows) && Fold(rows) == Success(out)
    ensures out != [] && MergesKey(rows, out[0])
  {
    var e1 := rows[0];
    var k0 := KeyOf(e1).value;
    HaveKeysTail(rows);
    FoldStep(rows, out);
    var realizado, cobrado := StrictAmount(e1, Realizado).value, StrictAmount(e1, Cobrado).value;
    var t := Scan(e1, rows[1..], realizado, cobrado).value;
    ScanMaxima(e1, rows[1..], realizado, cobrado, t);
    MergedKey(e1, t.0, t.1, Max(realizado, cobrado));
    assert rows == [e1] + rows[1..];
    assert HasKey(rows, k0);
    assert FirstIndex(rows, k0) == 0;
    PeakOfHead(rows, k0, Realizado, realizado, t.0);
    PeakOfHead(rows, k0, Cobrado, cobrado, t.1);
  }

  /** The peak of the first row's key: the first row's amount or a larger
      one of a later row. */
  lemma {:induction false} PeakOfHead(rows: seq<Row>, k0: Key, column: string, first: real, m: real)
    requires rows != [] && KeyOf(rows[0]) == Success(k0) && StrictAmount(rows[0], column) == Success(first)
    requires first <= m
    requires forall e :: e in rows[1..] && KeyOf(e) == Success(k0) ==>
      StrictAmount(e, column).Success? && StrictAmount(e, column).value <= m
    requires m == first || exists e :: e in rows[1..] && KeyOf(e) == Success(k0) && StrictAmount(e, column) == Success(m)
    ensures Peak(rows, k0, column, m)
  {
    assert rows == [rows[0]] + rows[1..];
    if m != first {
      var e :| e in rows[1..] && KeyOf(e) == Success(k0) && StrictAmount(e, column) == Success(m);
      assert e in rows;
    }
  }

  /** Dropping the rows of one key keeps the first row of every other key. */
  lemma {:induction false} FirstWithout(rows: seq<Row>, k0: Key, k: Key)
    requires k != k0 && HasKey(WithoutKey(rows, k0), k)
    ensures HasKey(rows, k)
    ensures WithoutKey(rows, k0)[FirstIndex(WithoutKey(rows, k0), k)] == rows[FirstIndex(rows, k)]
    decreases |rows|, 1
  {
    var w := WithoutKey(rows, k0);
    var e :| e in w && KeyOf(e) == Success(k);
    assert e in rows;
    if KeyOf(rows[0]) == Success(k0) {
      FirstWithoutDropped(rows, k0, k);
    } else if KeyOf(rows[0]) != Success(k) {
      FirstWithoutKept(rows, k0, k);
    } else {
      assert w[0] == rows[0];
    }
  }

  /** `FirstWithout` when the first row has the dropped key. */
  lemma {:induction false} FirstWithoutDropped(rows: seq<Row>, k0: Key, k: Key)
    requires k != k0 && rows != [] && KeyOf(rows[0]) == Success(k0)
    requires HasKey(WithoutKey(rows, k0), k) && HasKey(rows, k)
    ensures WithoutKey(rows, k0)[FirstIndex(WithoutKey(rows, k0), k)] == rows[FirstIndex(rows, k)]
    decreases |rows|, 0
  {
    assert WithoutKey(rows, k0) == WithoutKey(rows[1..], k0);
    FirstIndexTail(rows, k);
    FirstWithout(rows[1..], k0, k);
  }

  /** `FirstWithout` when the first row has a third key, kept. */
  lemma {:induction false} FirstWithoutKept(rows: seq<Row>, k0: Key, k: Key)
    requires k != k0 && rows != [] && KeyOf(rows[0]) != Success(k0) && KeyOf(rows[0]) != Success(k)
    requires HasKey(WithoutKey(rows, k0), k) && HasKey(rows, k)
    ensures WithoutKey(rows, k0)[FirstIndex(WithoutKey(rows, k0), k)] == rows[FirstIndex(rows, k)]
    decreases |rows|, 0
  {
    var w := WithoutKey(rows, k0);
    assert w == [rows[0]] + WithoutKey(rows[1..], k0);
    assert w[1..] == WithoutKey(rows[1..], k0);
    FirstIndexTail(rows, k);
    FirstIndexTail(w, k);
    FirstWithout(rows[1..], k0, k);
  }

  /** A peak of another key is the same with or without the first key's rows. */
  lemma {:induction false} PeakWithout(rows: seq<Row>, k0: Key, k: Key, column: string, m: real)
    requires rows != [] && KeyOf(rows[0]) == Success(k0) && k != k0
    requires Peak(WithoutKey(rows[1..], k0), k, column, m)
    ensures Peak(rows, k, column, m)
  {
    var w := WithoutKey(rows[1..], k0);
    assert rows == [rows[0]] + rows[1..];
    assert forall e :: e in rows && KeyOf(e) == Success(k) ==> e in w;
    var e :| e in w && KeyOf(e) == Success(k) && StrictAmount(e, column) == Success(m);
    assert e in rows;
  }

  /** A merged row of the later rounds is a merged row of the whole input. */
  lemma {:induction false} TailMerges(rows: seq<Row>, row: Row, k0: Key)
    requires rows != [] && KeyOf(rows[0]) == Success(k0)
    requires MergesKey(WithoutKey(rows[1..], k0), row)
    ensures MergesKey(rows, row)
  {
    var w := WithoutKey(rows[1..], k0);
    var k := KeyOf(row).value;
    assert k != k0 by {
      var e :| e in w && KeyOf(e) == Success(k);
    }
    FirstWithout(rows[1..], k0, k);
    FirstIndexTail(rows, k);
    var base := rows[FirstIndex(rows, k)];
    assert base == w[FirstIndex(w, k)];
    var gross := Max(StrictAmount(base, Realizado).value, StrictAmount(base, Cobrado).value);
    var maxR, maxC :| Peak(w, k, Realizado, maxR) && Peak(w, k, Cobrado, maxC) && row == Merged(base, maxR, maxC, gross);
    PeakWithout(rows, k0, k, Realizado, maxR);
    PeakWithout(rows, k0, k, Cobrado, maxC);
  }

  /** With every key present, every output row is the merged row of its key. */
  lemma {:induction false} FoldRows(rows: seq<Row>, out: seq<Row>)
    requires HaveKeys(rows) && Fold(rows) == Success(out)
    ensures forall i :: 0 <= i < |out| ==> MergesKey(rows, out[i])
    decreases |rows|
  {
    if rows != [] {
      FoldShape(rows, out);
      var k0 := KeyOf(rows[0]).value;
      var w := WithoutKey(rows[1..], k0);
      FoldRows(w, out[1..]);
      HeadMerges(rows, out);
      forall i | 1 <= i < |out| ensures MergesKey(rows, out[i]) {
        assert out[i] == out[1..][i - 1];
        TailMerges(rows, out[i], k0);
      }
    }
  }

  /** The entries of the month carry keys when all entries do. */
  lemma {:induction false} MonthEntriesHaveKeys(entries: seq<Row>, target: int, monthOf: MonthParser)
    requires HaveKeys(entries) && MonthEntries(entries, target, monthOf).Success?
    ensures HaveKeys(MonthEntries(entries, target, monthOf).value)
  {
    var rows := MonthEntries(entries, target, monthOf).value;
    forall i | 0 <= i < |rows| ensures KeyOf(rows[i]).Success? {
      assert rows[i] in entries;
      var j :| 0 <= j < |entries| && entries[j] == rows[i];
    }
  }

  /** With every key present, `merge_entries_by_month_and_criteria` succeeds
      exactly when the month name is known, every `Fecha` parses, and every
      row of the month has two readable amounts. */
  lemma {:induction false} MergeByCriteriaSucceeds(entries: seq<Row>, monthName: string, monthOf: MonthParser)
    requires HaveKeys(entries)
    ensures MergeByCriteria(entries, monthName, monthOf).Success? <==>
      && MonthNumber(Capitalize(monthName)).Some?
      && var target := MonthNumber(Capitalize(monthName)).value;
      && MonthEntries(entries, target, monthOf).Success?
      && forall e :: e in MonthEntries(entries, target, monthOf).value ==>
           StrictAmount(e, Realizado).Success? && StrictAmount(e, Cobrado).Success?
  {
    if MonthNumber(Capitalize(monthName)).Some? {
      var target := MonthNumber(Capitalize(monthName)).value;
      if MonthEntries(entries, target, monthOf).Success? {
        MonthEntriesHaveKeys(entries, target, monthOf);
        FoldSucceeds(MonthEntries(entries, target, monthOf).value);
      }
    }
  }

  /** With every key present, `merge_entries_by_month_and_criteria` yields
      one row per key of the month's rows, in the order of their first
      occurrences, each the first row of its key with the key's largest
      `Realizado` and `Cobrado` and the first row's own gross. */
  lemma {:induction false} MergeByCriteriaRows(entries: seq<Row>, monthName: string, monthOf: MonthParser, out: seq<Row>)
    requires HaveKeys(entries)
    requires MergeByCriteria(entries, monthName, monthOf) == Success(out)
    ensures MonthNumber(Capitalize(monthName)).Some?
    ensures var rows := MonthEntries(entries, MonthNumber(Capitalize(monthName)).value, monthOf).value;
      && KeysFrom(rows, out) && KeysCovered(rows, out) && InFirstOrder(rows, out)
      && forall i :: 0 <= i < |out| ==> MergesKey(rows, out[i])
  {
    var target := MonthNumber(Capitalize(monthName)).value;
    var rows := MonthEntries(entries, target, monthOf).value;
    MonthEntriesHaveKeys(entries, target, monthOf);
    FoldKeys(rows, out);
    FoldOrder(rows, out);
    FoldRows(rows, out);
  }
}
