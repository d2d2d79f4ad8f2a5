/** `merge_entries` (commissions3.py): the payments of a month grouped by
  identity key as in `merge_entries_in_pairs`; a lone row is kept as it is,
  a larger group becomes its first row carrying the group's largest
  `Realizado` and `Cobrado` and a numeric `Importe bruto`, kept only when
  both amounts are non-zero.

  The source takes the largest cell with Python's `max`, which orders text
  lexicographically: `"9,00"` beats `"10,00"`. `byValue` false models that;
  `byValue` true compares the amounts `parse_number` reads, as intended.
 */
module MergeEntries {
  import opened Wrappers
  import opened Text
  import opened Decimal
  import opened Dicts
  import opened Payments

  /** The larger of two amount cells, as written or by value: the first one
      unless the second is strictly larger. */
  function Larger(a: Cell, b: Cell, byValue: bool): (r: Result<Cell>)
    ensures r.Success? ==> r.value == a || r.value == b
  {
    if byValue then
      var x :- ParseNumber(a);
      var y :- ParseNumber(b);
      Success(if y > x then b else a)
    else PyMax(a, b)
  }

  /** `a` is kept by `Larger` against `b`. */
  predicate NotBelow(a: Cell, b: Cell, byValue: bool) {
    Larger(a, b, byValue) == Success(a)
  }

  /** `Larger` yields a cell that neither argument beats. */
  lemma {:induction false} LargerNotBelow(a: Cell, b: Cell, byValue: bool)
    requires Larger(a, b, byValue).Success?
    ensures NotBelow(Larger(a, b, byValue).value, a, byValue)
    ensures NotBelow(Larger(a, b, byValue).value, b, byValue)
  {
    if !byValue && a.Str? && b.Str? {
      StrLessIrreflexive(a.s);
      StrLessIrreflexive(b.s);
      StrLessAsymmetric(a.s, b.s);
    }
  }

  lemma {:induction false} NotBelowTransitive(a: Cell, b: Cell, c: Cell, byValue: bool)
    requires NotBelow(a, b, byValue) && NotBelow(b, c, byValue)
    ensures NotBelow(a, c, byValue)
  {
    if !byValue && a.Str? {
      StrLessIrreflexive(a.s);
      StrLessIrreflexive(b.s);
      assert !StrLess(a.s, b.s) && !StrLess(b.s, c.s);
      StrNotLessTransitive(a.s, b.s, c.s);
    }
  }

  /** The `for payment in group[1:]` loop: `Realizado`, then `Cobrado`, each
      replaced by the larger of the running cell and the payment's. */
  function FoldGroup(merged: Row, rest: seq<Row>, byValue: bool): Result<Row>
    decreases |rest|
  {
    if rest == [] then Success(merged)
    else
      var mr :- Get(merged, Realizado);
      var pr :- Get(rest[0], Realizado);
      var r :- Larger(mr, pr, byValue);
      var merged' := merged[Realizado := r];
      var mc :- Get(merged', Cobrado);
      var pc :- Get(rest[0], Cobrado);
      var c :- Larger(mc, pc, byValue);
      FoldGroup(merged'[Cobrado := c], rest[1..], byValue)
  }

  /** One group: a lone row as it is, a larger group folded into its first
      row with a numeric gross and dropped when an amount reads as zero. */
  function MergeGroup(group: seq<Row>, byValue: bool): Result<Option<Row>> {
    if |group| == 1 then Success(Some(group[0]))
    else if group == [] then Failure(IndexError)
    else
      var merged :- FoldGroup(group[0], group[1..], byValue);
      var r :- Amount(merged, Realizado);
      var c :- Amount(merged, Cobrado);
      var out := merged[ImporteBruto := Num(Max(r, c))];
      Success(if r != 0.0 && c != 0.0 then Some(out) else None)
  }

  /** The groups of `keys` in order, the kept ones. */
  function MergeAll(sel: seq<(Key, Row)>, keys: seq<Key>, byValue: bool): Result<seq<Row>> {
    if keys == [] then Success([])
    else
      var n := |keys| - 1;
      var init :- MergeAll(sel, keys[..n], byValue);
      var o :- MergeGroup(GroupOf(sel, keys[n]), byValue);
      Success(match o case Some(row) => init + [row] case None => init)
  }

  /** `merge_entries`, with text compared as written (`byValue` false) or by
      the amounts it denotes (`byValue` true). */
  function Merge(payments: seq<Row>, monthName: string, monthOf: MonthParser, byValue: bool): Result<seq<Row>> {
    var sel :- Select(payments, monthName, monthOf);
    MergeAll(sel, KeysOf(sel), byValue)
  }

  // ---------------------------------------------------------------------------
  // Properties

  /** The columns other than the two amounts keep the values of the first row. */
  ghost predicate SameOtherColumns(a: Row, b: Row) {
    forall c :: c != Realizado && c != Cobrado ==> (c in a <==> c in b) && (c in a ==> a[c] == b[c])
  }

  /** The folded row keeps every other column of the first row, and each
      amount is a cell of the group that no cell of the group beats. */
  lemma {:induction false} FoldGroupSpec(merged: Row, rest: seq<Row>, byValue: bool, out: Row)
    requires rest != []
    requires FoldGroup(merged, rest, byValue) == Success(out)
    ensures SameOtherColumns(out, merged)
    ensures Realizado in out && Cobrado in out && Realizado in merged && Cobrado in merged
    ensures NotBelow(out[Realizado], merged[Realizado], byValue) && NotBelow(out[Cobrado], merged[Cobrado], byValue)
    ensures forall p :: p in rest ==> Realizado in p && NotBelow(out[Realizado], p[Realizado], byValue)
    ensures forall p :: p in rest ==> Cobrado in p && NotBelow(out[Cobrado], p[Cobrado], byValue)
    ensures out[Realizado] == merged[Realizado] || exists p :: p in rest && Realizado in p && out[Realizado] == p[Realizado]
    ensures out[Cobrado] == merged[Cobrado] || exists p :: p in rest && Cobrado in p && out[Cobrado] == p[Cobrado]
    decreases |rest|
  {
    assert rest == [rest[0]] + rest[1..];
    var p := rest[0];
    var r := Larger(merged[Realizado], p[Realizado], byValue).value;
    var merged' := merged[Realizado := r];
    var c := Larger(merged'[Cobrado], p[Cobrado], byValue).value;
    var next := merged'[Cobrado := c];
    assert FoldGroup(next, rest[1..], byValue) == Success(out);
    LargerNotBelow(merged[Realizado], p[Realizado], byValue);
    LargerNotBelow(merged[Cobrado], p[Cobrado], byValue);
    if rest[1..] != [] {
      FoldGroupSpec(next, rest[1..], byValue, out);
      NotBelowTransitive(out[Realizado], r, merged[Realizado], byValue);
      NotBelowTransitive(out[Realizado], r, p[Realizado], byValue);
      NotBelowTransitive(out[Cobrado], c, merged[Cobrado], byValue);
      NotBelowTransitive(out[Cobrado], c, p[Cobrado], byValue);
    }
  }

  /** `row` carries, for both amounts, a cell of the group that no cell of the
      group beats, and otherwise the columns of the group's first row. */
  ghost predicate GroupPeak(group: seq<Row>, row: Row, byValue: bool)
    requires group != []
  {
    && Realizado in row && Cobrado in row
    && (forall p :: p in group ==> Realizado in p && NotBelow(row[Realizado], p[Realizado], byValue))
    && (forall p :: p in group ==> Cobrado in p && NotBelow(row[Cobrado], p[Cobrado], byValue))
    && (exists p :: p in group && Realizado in p && row[Realizado] == p[Realizado])
    && (exists p :: p in group && Cobrado in p && row[Cobrado] == p[Cobrado])
    && forall c :: c != Realizado && c != Cobrado && c != ImporteBruto ==>
         (c in row <==> c in group[0]) && (c in row ==> row[c] == group[0][c])
  }

  /** The fold of a group of two or more reaches its peak. */
  lemma {:induction false} FoldGroupPeak(group: seq<Row>, byValue: bool, merged: Row)
    requires |group| >= 2 && FoldGroup(group[0], group[1..], byValue) == Success(merged)
    ensures GroupPeak(group, merged, byValue)
  {
    FoldGroupSpec(group[0], group[1..], byValue, merged);
    assert group == [group[0]] + group[1..];
    assert forall p :: p in group ==> p == group[0] || p in group[1..];
  }

  /** Two cells that do not beat each other read as the same amount. */
  lemma {:induction false} NotBelowBoth(a: Cell, b: Cell, byValue: bool)
    requires NotBelow(a, b, byValue) && NotBelow(b, a, byValue)
    ensures ParseNumber(a) == ParseNumber(b)
  {
    if !byValue && a.Str? {
      StrLessTotal(a.s, b.s);
    }
  }

  /** All peaks of a group read as the same two amounts. */
  lemma {:induction false} PeakAmounts(group: seq<Row>, r1: Row, r2: Row, byValue: bool)
    requires group != [] && GroupPeak(group, r1, byValue) && GroupPeak(group, r2, byValue)
    ensures Amount(r1, Realizado) == Amount(r2, Realizado)
    ensures Amount(r1, Cobrado) == Amount(r2, Cobrado)
  {
    var p1 :| p1 in group && Realizado in p1 && r1[Realizado] == p1[Realizado];
    var p2 :| p2 in group && Realizado in p2 && r2[Realizado] == p2[Realizado];
    NotBelowBoth(r1[Realizado], r2[Realizado], byValue);
    var q1 :| q1 in group && Cobrado in q1 && r1[Cobrado] == q1[Cobrado];
    var q2 :| q2 in group && Cobrado in q2 && r2[Cobrado] == q2[Cobrado];
    NotBelowBoth(r1[Cobrado], r2[Cobrado], byValue);
  }

  /** A group of two or more is kept exactly when both peak amounts read as
      non-zero; the kept row is a peak with their larger value as gross. */
  lemma {:induction false} MergeGroupSpec(group: seq<Row>, byValue: bool, o: Option<Row>)
    requires |group| >= 2 && MergeGroup(group, byValue) == Success(o)
    ensures o.Some? ==>
      && GroupPeak(group, o.value, byValue)
      && Amount(o.value, Realizado).Success? && Amount(o.value, Cobrado).Success?
      && o.value[ImporteBruto] == Num(Max(Amount(o.value, Realizado).value, Amount(o.value, Cobrado).value))
    ensures o.None? <==> forall row :: GroupPeak(group, row, byValue) ==>
      Amount(row, Realizado) == Success(0.0) || Amount(row, Cobrado) == Success(0.0)
  {
    var merged := FoldGroup(group[0], group[1..], byValue).value;
    FoldGroupPeak(group, byValue, merged);
    assert Realizado != ImporteBruto && Cobrado != ImporteBruto;
    if o.Some? {
      var row := o.value;
      assert row == merged[ImporteBruto := row[ImporteBruto]];
      assert Amount(row, Realizado) == Amount(merged, Realizado);
      assert Amount(row, Cobrado) == Amount(merged, Cobrado);
      assert GroupPeak(group, row, byValue);
      assert !(Amount(row, Realizado) == Success(0.0) || Amount(row, Cobrado) == Success(0.0));
    } else {
      forall r | GroupPeak(group, r, byValue)
        ensures Amount(r, Realizado) == Success(0.0) || Amount(r, Cobrado) == Success(0.0)
      {
        PeakAmounts(group, r, merged, byValue);
      }
    }
  }

  /** A kept row has the key of its group. */
  lemma {:induction false} MergeGroupKey(group: seq<Row>, byValue: bool, row: Row)
    requires MergeGroup(group, byValue) == Success(Some(row))
    ensures KeyOf(row) == KeyOf(group[0])
  {
    if |group| >= 2 {
      MergeGroupSpec(group, byValue, Some(row));
      assert Fecha != Realizado && Fecha != Cobrado && Fecha != ImporteBruto;
      assert Codigo != Realizado && Codigo != Cobrado && Codigo != ImporteBruto;
      assert Tratamiento != Realizado && Tratamiento != Cobrado && Tratamiento != ImporteBruto;
      assert Diente != Realizado && Diente != Cobrado && Diente != ImporteBruto;
      assert Descripcion != Realizado && Descripcion != Cobrado && Descripcion != ImporteBruto;
    }
  }

  /** Over distinct keys, each key yields its kept group row once and the
      other keys nothing. */
  lemma {:induction false} MergeAllCount(sel: seq<(Key, Row)>, keys: seq<Key>, byValue: bool, out: seq<Row>, k: Key)
    requires Keyed(sel)
    requires forall i, j :: 0 <= i < j < |keys| ==> keys[i] != keys[j]
    requires MergeAll(sel, keys, byValue) == Success(out)
    ensures k in keys ==> MergeGroup(GroupOf(sel, k), byValue).Success?
    ensures CountKey(out, k) == if k in keys && MergeGroup(GroupOf(sel, k), byValue).value.Some? then 1 else 0
  {
    if keys != [] {
      var n := |keys| - 1;
      var init := MergeAll(sel, keys[..n], byValue).value;
      var kn := keys[n];
      var g := GroupOf(sel, kn);
      var o := MergeGroup(g, byValue).value;
      MergeAllCount(sel, keys[..n], byValue, init, k);
      assert k in keys <==> k in keys[..n] || k == kn;
      assert kn !in keys[..n];
      if o.Some? {
        assert out == init + [o.value];
        GroupOfKeyed(sel, kn);
        if g != [] {
          assert KeyOf(g[0]) == Success(kn);
        }
        MergeGroupKey(g, byValue, o.value);
        CountKeyAppend(init, [o.value], k);
        assert [o.value][..0] == [];
      } else {
        assert out == init;
      }
    }
  }

  /** Every row merged over a list of keys is the kept row of its key's group. */
  lemma {:induction false} MergeAllRows(sel: seq<(Key, Row)>, keys: seq<Key>, byValue: bool, out: seq<Row>)
    requires Keyed(sel)
    requires MergeAll(sel, keys, byValue) == Success(out)
    ensures forall i :: 0 <= i < |out| ==> (KeyOf(out[i]).Success? && KeyOf(out[i]).value in keys
      && MergeGroup(GroupOf(sel, KeyOf(out[i]).value), byValue) == Success(Some(out[i])))
  {
    if keys != [] {
      var n := |keys| - 1;
      var init := MergeAll(sel, keys[..n], byValue).value;
      var kn := keys[n];
      var g := GroupOf(sel, kn);
      var o := MergeGroup(g, byValue).value;
      MergeAllRows(sel, keys[..n], byValue, init);
      if o.Some? {
        assert out == init + [o.value];
        GroupOfKeyed(sel, kn);
        if g != [] {
          assert KeyOf(g[0]) == Success(kn);
        }
        MergeGroupKey(g, byValue, o.value);
        forall i | 0 <= i < |out|
          ensures KeyOf(out[i]).Success? && KeyOf(out[i]).value in keys
            && MergeGroup(GroupOf(sel, KeyOf(out[i]).value), byValue) == Success(Some(out[i]))
        {
          if i < |init| {
            assert out[i] == init[i];
          }
        }
      } else {
        assert out == init;
      }
    }
  }

  /** `merge_entries` yields, for each identity key of the month's rows, at
      most one row: the kept merge of the key's rows; a key with a single row
      always yields that row unchanged. */
  lemma {:induction false} MergeRows(payments: seq<Row>, monthName: string, monthOf: MonthParser, byValue: bool, out: seq<Row>, k: Key)
    requires Merge(payments, monthName, monthOf, byValue) == Success(out)
    ensures var g := RowsWithKey(MonthRows(payments, monthName, monthOf), k);
      && (g != [] ==> MergeGroup(g, byValue).Success?)
      && CountKey(out, k) == (if g != [] && MergeGroup(g, byValue).value.Some? then 1 else 0)
      && (|g| == 1 ==> g[0] in out)
    ensures forall i :: 0 <= i < |out| ==> (KeyOf(out[i]).Success?
      && MergeGroup(RowsWithKey(MonthRows(payments, monthName, monthOf), KeyOf(out[i]).value), byValue) == Success(Some(out[i])))
  {
    var sel := Select(payments, monthName, monthOf).value;
    SelectKeepsMonth(payments, monthName, monthOf, sel);
    var keys := KeysOf(sel);
    MergeAllCount(sel, keys, byValue, out, k);
    MergeAllRows(sel, keys, byValue, out);
    GroupOfRows(sel, k);
    GroupOfEmpty(sel, k);
    forall i | 0 <= i < |out|
      ensures KeyOf(out[i]).Success?
        && MergeGroup(RowsWithKey(MonthRows(payments, monthName, monthOf), KeyOf(out[i]).value), byValue) == Success(Some(out[i]))
    {
      GroupOfRows(sel, KeyOf(out[i]).value);
    }
    var g := GroupOf(sel, k);
    if |g| == 1 {
      CountKeyPositive(out, k);
      var i :| 0 <= i < |out| && KeyOf(out[i]) == Success(k);
      assert MergeGroup(g, byValue) == Success(Some(out[i]));
    }
  }

  /** The digit strings of the two examples below. */
  lemma {:induction false} ExampleDigits()
    ensures DigitsValue("9") == 9 && DigitsValue("10") == 10 && DigitsValue("00") == 0
  {
    assert "9"[..0] == [] && "1"[..0] == [] && "0"[..0] == [];
    assert "10"[..1] == "1" && "00"[..1] == "0";
  }

  /** `"9,00"` reads as 9. */
  lemma {:induction false} ParseNine()
    ensures ParseNumber(Str("9,00")) == Success(9.0)
  {
    ExampleDigits();
    assert "9" + "," + "00" == "9,00";
    ParseNumberComma("9", "00");
  }

  /** `"10,00"` reads as 10. */
  lemma {:induction false} ParseTen()
    ensures ParseNumber(Str("10,00")) == Success(10.0)
  {
    ExampleDigits();
    assert "10" + "," + "00" == "10,00";
    ParseNumberComma("10", "00");
  }

  /** A payment of 9 and one of 10, amounts as text. */
  const NineRow: Row := map[Realizado := Str("9,00"), Cobrado := Str("9,00")]
  const TenRow: Row := map[Realizado := Str("10,00"), Cobrado := Str("10,00")]

  lemma {:induction false} FoldNineTenAsWritten()
    ensures FoldGroup(NineRow, [TenRow], false) == Success(NineRow)
  {
    assert !StrLess("9,00", "10,00");
    assert [TenRow][1..] == [];
    assert NineRow[Realizado := Str("9,00")][Cobrado := Str("9,00")] == NineRow;
  }

  lemma {:induction false} LargerNineTen()
    ensures Larger(Str("9,00"), Str("10,00"), true) == Success(Str("10,00"))
  {
    ParseNine();
    ParseTen();
  }

  lemma {:induction false} NineRaisedToTen()
    ensures NineRow[Realizado := Str("10,00")][Cobrado := Str("10,00")] == TenRow
  {
  }

  lemma {:induction false} FoldNineTenByValue()
    ensures FoldGroup(NineRow, [TenRow], true) == Success(TenRow)
  {
    LargerNineTen();
    NineRaisedToTen();
    var raised := NineRow[Realizado := Str("10,00")];
    assert Get(raised, Cobrado) == Success(Str("9,00"));
    assert [TenRow][1..] == [];
  }

  lemma {:induction false} MergeNineTenAsWritten()
    ensures MergeGroup([NineRow, TenRow], false) == Success(Some(NineRow[ImporteBruto := Num(9.0)]))
  {
    assert [NineRow, TenRow][1..] == [TenRow];
    FoldNineTenAsWritten();
    ParseNine();
  }

  lemma {:induction false} MergeNineTenByValue()
    ensures MergeGroup([NineRow, TenRow], true) == Success(Some(TenRow[ImporteBruto := Num(10.0)]))
  {
    assert [NineRow, TenRow][1..] == [TenRow];
    FoldNineTenByValue();
    ParseTen();
  }

  /** Two payments of one key, of 9 and of 10: the merge as written keeps
      the text `"9,00"`, which is lexicographically larger, and a gross of 9;
      compared by value it keeps the 10. */
  lemma {:induction false} TextMaxIsLexicographic()
    ensures MergeGroup([NineRow, TenRow], false) == Success(Some(NineRow[ImporteBruto := Num(9.0)]))
    ensures MergeGroup([NineRow, TenRow], true) == Success(Some(TenRow[ImporteBruto := Num(10.0)]))
  {
    MergeNineTenAsWritten();
    MergeNineTenByValue();
  }
}
