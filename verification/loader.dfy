/** The pure steps the two spreadsheet loaders apply before writing to SQLite
    (`parse_html_to_db` and `parse_xlsx_to_db`, database_utils.py:7-352):
    header and row slicing, column-name cleaning, the name-based SQL type
    rules, the primary-key choice, and the conversion of REAL and DATETIME
    cell values.

  Pandas' own dtype inference is an input here (the type a column would get
  from its contents), and so are the date parsers.
 */
module Loader {
  import opened Wrappers
  import opened Text
  import opened Decimal

  // ---------------------------------------------------------------------------
  // Header and rows of an HTML export
  // ---------------------------------------------------------------------------

  /** `df.columns = df.iloc[0]; df = df.iloc[2:]` (database_utils.py:27-30):
      the first row names the columns, the second is discarded, the data
      starts at the third. A table without rows has no header to take. */
  function HtmlSlice<T>(grid: seq<seq<T>>): (r: Result<(seq<T>, seq<seq<T>>)>)
    ensures r.Failure? <==> grid == []
    ensures r.Failure? ==> r.error == IndexError
    ensures r.Success? ==>
              && r.value.0 == grid[0]
              && |r.value.1| == (if |grid| < 2 then 0 else |grid| - 2)
              && forall i :: 0 <= i < |r.value.1| ==> r.value.1[i] == grid[i + 2]
  {
    if grid == [] then Failure(IndexError)
    else if |grid| < 2 then Success((grid[0], []))
    else Success((grid[0], grid[2..]))
  }

  // ---------------------------------------------------------------------------
  // Column names
  // ---------------------------------------------------------------------------

  /** Python's `str.isalnum()` for one character, decided exactly for the
      Latin-1 range, where the Spanish column names live. Every character
      beyond it counts as not alphanumeric, although Python keeps letters
      and digits of other scripts. */
  predicate IsAlnum(c: char) {
    || ('0' <= c <= '9') || ('A' <= c <= 'Z') || ('a' <= c <= 'z')
    || c == '\U{AA}' || c == '\U{B2}' || c == '\U{B3}' || c == '\U{B5}' || c == '\U{B9}' || c == '\U{BA}'
    || ('\U{BC}' <= c <= '\U{BE}') || ('\U{C0}' <= c <= '\U{D6}') || ('\U{D8}' <= c <= '\U{F6}')
    || ('\U{F8}' <= c <= '\U{FF}')
  }

  /** A character that survives cleaning. */
  predicate IsColumnChar(c: char) {
    IsAlnum(c) || c == '_'
  }

  predicate IsCleanName(s: string) {
    forall i :: 0 <= i < |s| ==> IsColumnChar(s[i])
  }

  /** `"".join(c for c in s if c.isalnum() or c == '_')`. */
  function KeepColumnChars(s: string): (r: string)
    ensures IsCleanName(r)
    ensures |r| <= |s|
  {
    if s == [] then []
    else (if IsColumnChar(s[0]) then [s[0]] else []) + KeepColumnChars(s[1..])
  }

  /** The column-name cleaning of database_utils.py:36 and :201. */
  function CleanColumn(name: string): string {
    ReplaceChar(KeepColumnChars(name), ' ', '_')
  }

  /** A cleaned name holds only alphanumeric characters and `_`, so never a
      space: the trailing `replace(' ', '_')` has nothing to replace. */
  lemma {:induction false} CleanColumnShape(name: string)
    ensures CleanColumn(name) == KeepColumnChars(name)
    ensures IsCleanName(CleanColumn(name))
    ensures forall i :: 0 <= i < |CleanColumn(name)| ==> CleanColumn(name)[i] != ' '
  {
    ReplaceAbsent(KeepColumnChars(name), ' ', '_');
  }

  /** Filtering a name that is already clean keeps all of it. */
  lemma {:induction false} KeepCleanName(s: string)
    requires IsCleanName(s)
    ensures KeepColumnChars(s) == s
    decreases |s|
  {
    if s != [] {
      KeepCleanName(s[1..]);
    }
  }

  /** Cleaning leaves a clean name alone, so cleaning twice is cleaning once. */
  lemma {:induction false} CleanColumnIdempotent(name: string)
    ensures IsCleanName(name) ==> CleanColumn(name) == name
    ensures CleanColumn(CleanColumn(name)) == CleanColumn(name)
  {
    CleanColumnShape(name);
    if IsCleanName(name) {
      KeepCleanName(name);
    }
    KeepCleanName(CleanColumn(name));
    CleanColumnShape(CleanColumn(name));
  }

  const Nan := "nan"
  const Codigo := "Código"
  const CodigoPaciente := "CódigoPaciente"
  const Tratamientos := "tratamientos"

  /** `df.loc[:, df.columns != 'nan']`, on the names. */
  function DropNan(names: seq<string>): (r: seq<string>)
    ensures |r| <= |names|
  {
    if names == [] then []
    else DropNan(names[..|names| - 1]) + (if names[|names| - 1] == Nan then [] else [names[|names| - 1]])
  }

  /** Exactly the names other than `nan` survive. */
  lemma {:induction false} DropNanMembership(names: seq<string>, x: string)
    ensures x in DropNan(names) <==> x in names && x != Nan
  {
    if names != [] {
      var n := |names| - 1;
      DropNanMembership(names[..n], x);
      assert names == names[..n] + [names[n]];
    }
  }

  /** Without a `nan` name, every column is kept, in order. */
  lemma {:induction false} DropNanNone(names: seq<string>)
    requires Nan !in names
    ensures DropNan(names) == names
  {
    if names != [] {
      var n := |names| - 1;
      assert names == names[..n] + [names[n]];
      DropNanNone(names[..n]);
    }
  }

  /** `df.rename(columns={"Código": "CódigoPaciente"})`: every column named
      `Código` is renamed. */
  function RenameCodigo(names: seq<string>): (r: seq<string>)
    ensures |r| == |names|
    ensures Codigo !in r
    ensures forall i :: 0 <= i < |names| ==> (r[i] == CodigoPaciente <==> names[i] == Codigo || names[i] == CodigoPaciente)
    ensures forall i :: 0 <= i < |names| && names[i] != Codigo ==> r[i] == names[i]
  {
    seq(|names|, i requires 0 <= i < |names| => if names[i] == Codigo then CodigoPaciente else names[i])
  }

  /** The header cleaned name by name. */
  function CleanedNames(header: seq<string>): (r: seq<string>)
    ensures |r| == |header|
    ensures forall i :: 0 <= i < |header| ==> r[i] == CleanColumn(header[i])
  {
    seq(|header|, i requires 0 <= i < |header| => CleanColumn(header[i]))
  }

  /** The final column names: cleaned, without `nan` columns, and for the HTML
      export of `tratamientos` with a leading `Código` renamed
      (database_utils.py:33-47 and :198-206). */
  function ColumnNames(header: seq<string>, tableName: string, html: bool): seq<string> {
    var kept := DropNan(CleanedNames(header));
    if html && tableName == Tratamientos && |kept| > 0 && kept[0] == Codigo then RenameCodigo(kept) else kept
  }

  /** Renaming touches no other name. */
  lemma {:induction false} RenameKeeps(names: seq<string>, x: string)
    requires x != Codigo && x != CodigoPaciente
    ensures x in RenameCodigo(names) <==> x in names
  {
    var r := RenameCodigo(names);
    if x in names {
      var k :| 0 <= k < |names| && names[k] == x;
      assert r[k] == x;
    }
    if x in r {
      var k :| 0 <= k < |r| && r[k] == x;
      assert names[k] == x;
    }
  }

  /** Every final name is clean and not `nan`. */
  lemma {:induction false} ColumnNamesClean(header: seq<string>, tableName: string, html: bool, x: string)
    requires x in ColumnNames(header, tableName, html)
    ensures IsCleanName(x) && x != Nan
  {
    var kept := DropNan(CleanedNames(header));
    if x == CodigoPaciente {
      assert forall i :: 0 <= i < |CodigoPaciente| ==> IsColumnChar(CodigoPaciente[i]);
    } else {
      if x != Codigo {
        RenameKeeps(kept, x);
      } else {
        assert x in kept;
      }
      DropNanMembership(CleanedNames(header), x);
      var i :| 0 <= i < |header| && CleanedNames(header)[i] == x;
      CleanColumnShape(header[i]);
    }
  }

  /** Apart from the renamed `Código`, the final names are exactly the cleaned
      header names other than `nan`. */
  lemma {:induction false} ColumnNamesKept(header: seq<string>, tableName: string, html: bool, x: string)
    requires x != Codigo && x != CodigoPaciente
    ensures x in ColumnNames(header, tableName, html) <==>
              x != Nan && exists i :: 0 <= i < |header| && CleanColumn(header[i]) == x
  {
    var cleaned := CleanedNames(header);
    RenameKeeps(DropNan(cleaned), x);
    DropNanMembership(cleaned, x);
    if x in cleaned {
      var i :| 0 <= i < |cleaned| && cleaned[i] == x;
      assert CleanColumn(header[i]) == x;
    }
    if exists i :: 0 <= i < |header| && CleanColumn(header[i]) == x {
      var i :| 0 <= i < |header| && CleanColumn(header[i]) == x;
      assert cleaned[i] == x;
    }
  }

  /** The HTML export of `tratamientos` ends up without a `Código` column when
      its first column was one. */
  lemma {:induction false} TratamientosRenamed(header: seq<string>)
    requires var kept := DropNan(CleanedNames(header)); |kept| > 0 && kept[0] == Codigo
    ensures Codigo !in ColumnNames(header, Tratamientos, true)
    ensures CodigoPaciente in ColumnNames(header, Tratamientos, true)
  {
  }

  // ---------------------------------------------------------------------------
  // SQL column types and the primary key
  // ---------------------------------------------------------------------------

  datatype SqlType = SqlInteger | SqlReal | SqlDatetime | SqlText

  /** The money words of database_utils.py:71 and :228. */
  predicate IsMoneyName(name: string) {
    Contains(name, "Importe") || Contains(name, "Saldo") || Contains(name, "Precio") || Contains(name, "Coste")
  }

  /** The type a column's name alone decides, if any. */
  function NameType(name: string): (r: Option<SqlType>)
    ensures r.None? <==> name != Codigo && !Contains(name, "Fecha") && !IsMoneyName(name)
  {
    if name == Codigo then Some(SqlInteger)
    else if Contains(name, "Fecha") then Some(SqlDatetime)
    else if IsMoneyName(name) then Some(SqlReal)
    else None
  }

  /** The SQL type of a column: its name's type, else the type pandas would
      infer from its contents (database_utils.py:64-92 and :222-252). */
  function ColumnType(name: string, inferred: SqlType): SqlType {
    NameType(name).GetOr(inferred)
  }

  /** The name rules come first, in the order `Código`, `Fecha`, the money
      words; the inferred type only matters for a name none of them covers. */
  lemma {:induction false} ColumnTypePrecedence(name: string, inferred: SqlType)
    ensures name == Codigo ==> ColumnType(name, inferred) == SqlInteger
    ensures name != Codigo && Contains(name, "Fecha") ==> ColumnType(name, inferred) == SqlDatetime
    ensures name != Codigo && !Contains(name, "Fecha") && IsMoneyName(name) ==> ColumnType(name, inferred) == SqlReal
    ensures NameType(name).Some? ==> forall other :: ColumnType(name, other) == ColumnType(name, inferred)
    ensures NameType(name).None? ==> ColumnType(name, inferred) == inferred
  {
  }

  /** A date column whose name also holds a money word is a date column. */
  lemma DateBeforeMoney(inferred: SqlType)
    ensures ColumnType("FechaImporte", inferred) == SqlDatetime
  {
    assert OccursAt("FechaImporte", "Fecha", 0);
    ContainsAt("FechaImporte", "Fecha");
  }

  datatype ColumnDef = ColumnDef(name: string, sqlType: SqlType, primaryKey: bool)

  function Names(dtypes: seq<(string, SqlType)>): (r: seq<string>)
    ensures |r| == |dtypes| && forall i :: 0 <= i < |dtypes| ==> r[i] == dtypes[i].0
  {
    seq(|dtypes|, i requires 0 <= i < |dtypes| => dtypes[i].0)
  }

  /** The column definitions of the `CREATE TABLE` statement, from the final
      names paired with the type pandas infers for each column. */
  function ColumnDefs(dtypes: seq<(string, SqlType)>): (r: seq<ColumnDef>)
    ensures |r| == |dtypes|
    ensures forall i :: 0 <= i < |dtypes| ==> r[i].name == dtypes[i].0
  {
    var primaryKey := if Codigo in Names(dtypes) then Some(Codigo) else None;
    seq(|dtypes|, i requires 0 <= i < |dtypes| =>
      ColumnDef(dtypes[i].0, ColumnType(dtypes[i].0, dtypes[i].1), Some(dtypes[i].0) == primaryKey))
  }

  /** The primary key is the `Código` column, typed INTEGER, and no other; with
      distinct column names there is exactly one when `Código` is present and
      none otherwise. */
  lemma {:induction false} PrimaryKeyChoice(dtypes: seq<(string, SqlType)>)
    ensures var defs := ColumnDefs(dtypes);
      && (forall i :: 0 <= i < |defs| ==> (defs[i].primaryKey <==> dtypes[i].0 == Codigo))
      && (forall i :: 0 <= i < |defs| && defs[i].primaryKey ==> defs[i].sqlType == SqlInteger)
    ensures (forall i, j :: 0 <= i < j < |dtypes| ==> dtypes[i].0 != dtypes[j].0) ==>
              && (forall i, j :: 0 <= i < |dtypes| && 0 <= j < |dtypes| && ColumnDefs(dtypes)[i].primaryKey && ColumnDefs(dtypes)[j].primaryKey ==> i == j)
              && (Codigo in Names(dtypes) <==> exists i :: 0 <= i < |dtypes| && ColumnDefs(dtypes)[i].primaryKey)
  {
    var defs := ColumnDefs(dtypes);
    forall i | 0 <= i < |defs|
      ensures defs[i].primaryKey <==> dtypes[i].0 == Codigo
    {
      if dtypes[i].0 == Codigo {
        assert Names(dtypes)[i] == Codigo;
      }
    }
    if Codigo in Names(dtypes) {
      var i :| 0 <= i < |dtypes| && Names(dtypes)[i] == Codigo;
      assert defs[i].primaryKey;
    }
  }

  // ---------------------------------------------------------------------------
  // REAL values
  // ---------------------------------------------------------------------------

  /** A cell of the frame after `df.replace({np.nan: None})`. */
  datatype Value = Blank | Txt(s: string) | Number(x: real)

  /** The "integral means cents" rule: an integral amount is read as cents,
      any other amount is kept (database_utils.py:136-137). */
  function AsEuros(x: real): (r: real)
    ensures x.Floor as real == x ==> r * 100.0 == x
    ensures x.Floor as real != x ==> r == x
  {
    if x.Floor as real == x then x / 100.0 else x
  }

  /** Text `float()` reads as an infinity; `int()` of it raises OverflowError,
      which the loader does not catch. */
  predicate IsInfinityText(t: string) {
    Lower(Strip(t)) in {"inf", "+inf", "-inf", "infinity", "+infinity", "-infinity"}
  }

  /** The least magnitude `float()` rounds to an infinity: halfway between
      the largest finite double, (2 - 2^-52) * 2^1023, and 2^1024; the tie
      goes to 2^1024, whose mantissa is even. The value is 2^1024 - 2^970. */
  const DoubleOverflow: real := 179769313486231580793728971405303415079934132710037826936173778980444968292764750946649017977587207096330286416692887910946555547851940402630657488671505820681908902000708383676273854845817711531764475730270069855571366959622842914819860834936475292719074168444365510704342711559699508093042880177904174497792.0

  /** An amount `float()` reads as an infinity, such as the value of "1e400". */
  predicate Overflows(x: real) {
    x >= DoubleOverflow || x <= -DoubleOverflow
  }

  /** Conversion of one cell of a REAL column (database_utils.py:124-151 and
      :283-308): `None` for SQL NULL, otherwise the amount written with two
      decimals. */
  function ConvertReal(v: Value): Result<Option<string>> {
    match v
    case Blank => Success(None)
    case Number(x) => Success(Some(Fixed2(AsEuros(x))))
    case Txt(s) =>
      if Lower(s) == Nan then Success(None)
      else
        var t := ReplaceChar(s, ',', '.');
        if IsInfinityText(t) then Failure(OverflowError)
        else match ReadFloat(t)
          case None => Success(None)
          case Some(x) =>
            if Overflows(x) then Failure(OverflowError) else Success(Some(Fixed2(AsEuros(x))))
  }

  /** `nan` in any case, and text that is no number, become NULL; the loader
      fails only on text `float()` reads as an infinity. */
  lemma {:induction false} ConvertRealNull(s: string)
    ensures Lower(s) == Nan ==> ConvertReal(Txt(s)) == Success(None)
    ensures var t := ReplaceChar(s, ',', '.');
      ConvertReal(Txt(s)).Failure? <==>
        Lower(s) != Nan && (IsInfinityText(t) || (ReadFloat(t).Some? && Overflows(ReadFloat(t).value)))
    ensures Lower(s) != Nan && !IsInfinityText(ReplaceChar(s, ',', '.')) && ReadFloat(ReplaceChar(s, ',', '.')).None? ==>
              ConvertReal(Txt(s)) == Success(None)
  {
  }

  /** A number written with a decimal comma converts like the same number
      written with a point, and the stored text reads back as the converted
      amount rounded to cents. */
  lemma {:induction false} ConvertRealReadBack(s: string, x: real)
    requires Lower(s) != Nan && !IsInfinityText(ReplaceChar(s, ',', '.'))
    requires ReadFloat(ReplaceChar(s, ',', '.')) == Some(x) && !Overflows(x)
    ensures ConvertReal(Txt(s)).Success? && ConvertReal(Txt(s)).value.Some?
    ensures ReadFloat(ConvertReal(Txt(s)).value.value) == Some(Round2(AsEuros(x)))
  {
    ReadFixed2(AsEuros(x));
  }

  /** Rounding to cents keeps an amount that is already whole cents. */
  lemma {:induction false} Round2WholeCents(c: int)
    ensures Round2(c as real / 100.0) == c as real / 100.0
  {
    var x := c as real / 100.0;
    assert x * 100.0 == c as real;
    var n := RoundHalfEven(x * 100.0);
    assert -(1.0 / 2.0) <= n as real - c as real <= 1.0 / 2.0;
    assert n == c;
  }

  /** An integral amount is stored as that many cents: text reading `c` is
      stored as text reading `c / 100`. */
  lemma {:induction false} IntegralIsCents(s: string, c: int)
    requires Lower(s) != Nan && !IsInfinityText(ReplaceChar(s, ',', '.'))
    requires ReadFloat(ReplaceChar(s, ',', '.')) == Some(c as real) && !Overflows(c as real)
    ensures ConvertReal(Txt(s)).Success? && ConvertReal(Txt(s)).value.Some?
    ensures ReadFloat(ConvertReal(Txt(s)).value.value) == Some(c as real / 100.0)
  {
    ConvertRealReadBack(s, c as real);
    assert AsEuros(c as real) == c as real / 100.0;
    Round2WholeCents(c);
  }

  // ---------------------------------------------------------------------------
  // DATETIME values
  // ---------------------------------------------------------------------------

  /** The explicit formats the XLSX loader tries, in order (database_utils.py:315). */
  const XlsxDateFormats := ["%d/%m/%Y", "%d-%m-%Y", "%Y/%m/%d", "%Y-%m-%d", "%d/%m/%y", "%d-%m-%y"]

  /** The one explicit format the HTML loader tries (database_utils.py:158). */
  const HtmlDateFormats := ["%d/%m/%y"]

  /** The first format, from position `i` on, that `strptime` accepts. */
  function FirstFormat<D>(value: string, formats: seq<string>, strptime: (string, string) -> Option<D>, i: nat): (r: Option<nat>)
    requires i <= |formats|
    ensures r.Some? ==> i <= r.value < |formats| && strptime(value, formats[r.value]).Some?
    decreases |formats| - i
  {
    if i == |formats| then None
    else if strptime(value, formats[i]).Some? then Some(i)
    else FirstFormat(value, formats, strptime, i + 1)
  }

  /** Conversion of one cell of a DATETIME column: a text value tries the
      explicit formats in order and then pandas' parser; any other value goes to
      pandas' parser directly. `None` is SQL NULL. */
  function ConvertDate<D>(v: Value, formats: seq<string>, strptime: (string, string) -> Option<D>, coerce: Value -> Option<D>): Option<D> {
    match v
    case Blank => None
    case Number(_) => coerce(v)
    case Txt(s) =>
      match FirstFormat(s, formats, strptime, 0)
      case Some(i) => strptime(s, formats[i])
      case None => coerce(v)
  }

  /** The first format that succeeds decides the date; the fallback parser is
      consulted only when every format fails. */
  lemma {:induction false} FirstFormatWins<D>(s: string, formats: seq<string>, strptime: (string, string) -> Option<D>, coerce: Value -> Option<D>, i: nat)
    requires i < |formats| && strptime(s, formats[i]).Some?
    requires forall j :: 0 <= j < i ==> strptime(s, formats[j]).None?
    ensures ConvertDate(Txt(s), formats, strptime, coerce) == strptime(s, formats[i])
  {
    FirstFormatFrom(s, formats, strptime, 0, i);
  }

  lemma {:induction false} FirstFormatFrom<D>(s: string, formats: seq<string>, strptime: (string, string) -> Option<D>, k: nat, i: nat)
    requires k <= i < |formats| && strptime(s, formats[i]).Some?
    requires forall j :: k <= j < i ==> strptime(s, formats[j]).None?
    ensures FirstFormat(s, formats, strptime, k) == Some(i)
    decreases i - k
  {
    if k < i {
      FirstFormatFrom(s, formats, strptime, k + 1, i);
    }
  }

  lemma {:induction false} NoFormatFrom<D>(s: string, formats: seq<string>, strptime: (string, string) -> Option<D>, k: nat)
    requires k <= |formats|
    requires forall j :: k <= j < |formats| ==> strptime(s, formats[j]).None?
    ensures FirstFormat(s, formats, strptime, k) == None
    decreases |formats| - k
  {
    if k < |formats| {
      NoFormatFrom(s, formats, strptime, k + 1);
    }
  }

  /** When no explicit format accepts the text, pandas' parser decides. */
  lemma {:induction false} FallbackWhenNoFormat<D>(s: string, formats: seq<string>, strptime: (string, string) -> Option<D>, coerce: Value -> Option<D>)
    requires forall j :: 0 <= j < |formats| ==> strptime(s, formats[j]).None?
    ensures ConvertDate(Txt(s), formats, strptime, coerce) == coerce(Txt(s))
  {
    NoFormatFrom(s, formats, strptime, 0);
  }
}
