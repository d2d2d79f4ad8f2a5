/** Commission calculation: the doctors' commission table, the choice of a
  commission type, VAT stripping for aesthetic medicine, and the two
  calculations of `commissions3.py` and `calculate_commissions.py`.

  Money is an exact `real`. Display formatting (`format_number`,
  `"{:.2f}"`) is left out of the output lines: each line holds the values
  the code formats.
 */
module Commissions {
  import opened Wrappers
  import opened Text
  import opened Decimal
  import opened Calendar
  import opened Payments
  import opened Criteria

  // ---------------------------------------------------------------------------
  // The commission table

  /** One entry of the commission table: a doctor, the kind of treatment the
      doctor performs, a commission type and its percentage. */
  datatype Rule = Rule(id: string, name: string, treatmentType: string, commissionType: string, commission: real)

  const Dentistry := "dentistry"
  const Aesthetic := "aesthetic_medicine"
  const Regular := "regular"
  const Referido := "referido"
  const Invisalign := "invisalign"

  /** `doctors_commissions`. */
  const DoctorsCommissions: seq<Rule> := [
    Rule("15", "Anna Pevrukhina", Dentistry, Regular, 35.0),
    Rule("15", "Anna Pevrukhina", Dentistry, Referido, 50.0),
    Rule("14", "Juan Millet", Dentistry, Regular, 35.0),
    Rule("14", "Juan Millet", Dentistry, Referido, 50.0),
    Rule("10", "Macarena Remohi Martínez-Medina", Dentistry, Regular, 60.0),
    Rule("10", "Macarena Remohi Martínez-Medina", Dentistry, Invisalign, 50.0),
    Rule("11", "Alejandro Cordero", Dentistry, Regular, 35.0),
    Rule("2", "Agusti Ferrando i Estrella", Dentistry, Regular, 35.0),
    Rule("20", "Melissa Rivera", Aesthetic, Regular, 50.0),
    Rule("23", "Carmen Herrero", Aesthetic, Regular, 60.0),
    Rule("22", "Dayana Arizaka Riquelme", Aesthetic, Regular, 50.0)
  ]

  /** The rules of one doctor, in table order. */
  function DoctorRules(rules: seq<Rule>, doctorId: string): (r: seq<Rule>)
    ensures |r| <= |rules|
    ensures forall x :: x in r <==> x in rules && x.id == doctorId
  {
    if rules == [] then []
    else (if rules[0].id == doctorId then [rules[0]] else []) + DoctorRules(rules[1..], doctorId)
  }

  /** The first rule of commission type `kind`: the `next(..., None)` lookup. */
  function FindRule(rules: seq<Rule>, kind: string): (r: Option<Rule>)
    ensures r.None? <==> forall x :: x in rules ==> x.commissionType != kind
    ensures r.Some? ==> r.value in rules && r.value.commissionType == kind
  {
    if rules == [] then None
    else if rules[0].commissionType == kind then Some(rules[0])
    else FindRule(rules[1..], kind)
  }

  /** The rule `FindRule` returns is the first of its type. */
  lemma {:induction false} FindRuleFirst(rules: seq<Rule>, kind: string, i: nat)
    requires i < |rules| && rules[i].commissionType == kind
    ensures FindRule(rules, kind).Some?
    ensures (forall j :: 0 <= j < i ==> rules[j].commissionType != kind) ==> FindRule(rules, kind) == Some(rules[i])
    decreases i
  {
    if i > 0 && rules[0].commissionType != kind {
      FindRuleFirst(rules[1..], kind, i - 1);
      if forall j :: 0 <= j < i ==> rules[j].commissionType != kind {
        assert forall j :: 0 <= j < i - 1 ==> rules[1..][j].commissionType != kind by {
          forall j | 0 <= j < i - 1
            ensures rules[1..][j].commissionType != kind
          {
            assert rules[1..][j] == rules[j + 1];
          }
        }
      }
    }
  }

  // ---------------------------------------------------------------------------
  // Commission types

  /** `get_commission_type`: invisalign work of doctor 10, then the two
      referral rules, then regular. The description is lower-cased only when
      the doctor is 10, and only text has `.lower()`. */
  function GetCommissionType(doctorId: string, description: Cell, referral: Cell): (r: Result<string>)
    ensures r.Success? ==> r.value in {Invisalign, Referido, Regular}
    ensures r.Failure? <==> doctorId == "10" && !description.Str?
    ensures r.Failure? ==> r.error == AttributeError
  {
    if doctorId == "10" && !description.Str? then Failure(AttributeError)
    else if doctorId == "10" && Contains(Lower(description.s), Invisalign) then Success(Invisalign)
    else if doctorId == "15" && referral == Str("Referido Anna U") then Success(Referido)
    else if doctorId == "14" && referral == Str("Referido Juan") then Success(Referido)
    else Success(Regular)
  }

  /** The commission type of `perform_calculation2`, from the lower-cased
      description and the referral source the patients table gives, if any. */
  function KindFor(doctorId: string, lowered: string, referral: Option<string>): (k: string)
    ensures k in {Invisalign, Referido, Regular}
  {
    if doctorId == "10" && Contains(lowered, Invisalign) then Invisalign
    else if doctorId == "15" && referral == Some("Referido Anna U") then Referido
    else if doctorId == "14" && referral == Some("Referido Juan") then Referido
    else Regular
  }

  /** The referral source text of a cell, if it is text. */
  function ReferralText(c: Cell): Option<string> {
    if c.Str? then Some(c.s) else None
  }

  /** The two decision tables agree: `get_commission_type` on a text
      description is the type `perform_calculation2` chooses for the same
      lower-cased description and the referral cell read as text. */
  lemma {:induction false} CommissionTypesAgree(doctorId: string, description: string, referral: Cell)
    ensures GetCommissionType(doctorId, Str(description), referral)
         == Success(KindFor(doctorId, Lower(description), ReferralText(referral)))
  {
  }

  /** The fixed order of `get_commission_type`: invisalign wins over the
      referral rules, each referral rule belongs to its own doctor, and every
      other case is regular. */
  lemma {:induction false} CommissionTypeOrder(doctorId: string, description: Cell, referral: Cell)
    requires GetCommissionType(doctorId, description, referral).Success?
    ensures var k := GetCommissionType(doctorId, description, referral).value;
      k == Invisalign <==> doctorId == "10" && Contains(Lower(description.s), Invisalign)
    ensures var k := GetCommissionType(doctorId, description, referral).value;
      k == Referido <==>
        || (doctorId == "15" && referral == Str("Referido Anna U"))
        || (doctorId == "14" && referral == Str("Referido Juan"))
    ensures var k := GetCommissionType(doctorId, description, referral).value;
      k == Regular <==> !(doctorId in {"10", "14", "15"}) || (k != Invisalign && k != Referido)
  {
  }

  /** `perform_calculation` passes the payment's code as the referral source,
      so a numeric code, as the `comisiones` table stores it, never selects
      the referral percentage. */
  lemma {:induction false} NumericCodeNeverReferral(doctorId: string, description: Cell, code: real)
    requires GetCommissionType(doctorId, description, Num(code)).Success?
    ensures GetCommissionType(doctorId, description, Num(code)).value != Referido
  {
  }

  /** The rules of the table of one doctor and commission type. */
  lemma {:induction false} RuleInTable(doctorId: string, kind: string, j: nat)
    requires j < |DoctorsCommissions|
    requires DoctorsCommissions[j].id == doctorId && DoctorsCommissions[j].commissionType == kind
    ensures FindRule(DoctorRules(DoctorsCommissions, doctorId), kind).Some?
  {
    assert DoctorsCommissions[j] in DoctorRules(DoctorsCommissions, doctorId);
  }

  /** The types a doctor's decision can produce have rules in the table. */
  lemma {:induction false} CoversReferral(doctorId: string, description: Cell, referral: Cell, regular: nat, referido: nat)
    requires doctorId == "15" || doctorId == "14"
    requires regular < |DoctorsCommissions| && referido < |DoctorsCommissions|
    requires DoctorsCommissions[regular] == Rule(doctorId, DoctorsCommissions[regular].name, Dentistry, Regular, 35.0)
    requires DoctorsCommissions[referido] == Rule(doctorId, DoctorsCommissions[referido].name, Dentistry, Referido, 50.0)
    ensures GetCommissionType(doctorId, description, referral).Success?
    ensures FindRule(DoctorRules(DoctorsCommissions, doctorId), GetCommissionType(doctorId, description, referral).value).Some?
  {
    var k := GetCommissionType(doctorId, description, referral).value;
    assert k == Regular || k == Referido;
    RuleInTable(doctorId, k, if k == Referido then referido else regular);
  }

  lemma {:induction false} CoversInvisalign(description: Cell, referral: Cell)
    requires GetCommissionType("10", description, referral).Success?
    ensures FindRule(DoctorRules(DoctorsCommissions, "10"), GetCommissionType("10", description, referral).value).Some?
  {
    var k := GetCommissionType("10", description, referral).value;
    assert k == Regular || k == Invisalign;
    RuleInTable("10", k, if k == Invisalign then 5 else 4);
  }

  lemma {:induction false} CoversRegular(doctorId: string, description: Cell, referral: Cell, i: nat)
    requires doctorId != "10" && doctorId != "14" && doctorId != "15"
    requires i < |DoctorsCommissions|
    requires DoctorsCommissions[i].id == doctorId && DoctorsCommissions[i].commissionType == Regular
    ensures GetCommissionType(doctorId, description, referral) == Success(Regular)
    ensures FindRule(DoctorRules(DoctorsCommissions, doctorId), Regular).Some?
  {
    RuleInTable(doctorId, Regular, i);
  }

  /** For a doctor of the table, every commission type the decision can
      produce has a rule, so the table lookup finds one. */
  lemma {:induction false} TableCoversDoctors(i: nat, description: Cell, referral: Cell)
    requires i < |DoctorsCommissions|
    requires GetCommissionType(DoctorsCommissions[i].id, description, referral).Success?
    ensures var doctorId := DoctorsCommissions[i].id;
      FindRule(DoctorRules(DoctorsCommissions, doctorId), GetCommissionType(doctorId, description, referral).value).Some?
  {
    if i <= 1 {
      assert DoctorsCommissions[i].id == "15";
      CoversReferral("15", description, referral, 0, 1);
    } else if i <= 3 {
      assert DoctorsCommissions[i].id == "14";
      CoversReferral("14", description, referral, 2, 3);
    } else if i <= 5 {
      assert DoctorsCommissions[i].id == "10";
      CoversInvisalign(description, referral);
    } else if i == 6 {
      CoversRegular("11", description, referral, i);
    } else if i == 7 {
      CoversRegular("2", description, referral, i);
    } else if i == 8 {
      CoversRegular("20", description, referral, i);
    } else if i == 9 {
      CoversRegular("23", description, referral, i);
    } else {
      CoversRegular("22", description, referral, i);
    }
  }

  /** Each doctor of the table performs one kind of treatment, and has at
      most one rule per commission type. */
  lemma {:induction false} TableConsistent(i: nat, j: nat)
    requires i < |DoctorsCommissions| && j < |DoctorsCommissions|
    requires DoctorsCommissions[i].id == DoctorsCommissions[j].id
    ensures DoctorsCommissions[i].treatmentType == DoctorsCommissions[j].treatmentType
    ensures DoctorsCommissions[i].commissionType == DoctorsCommissions[j].commissionType ==> i == j
  {
  }

  // ---------------------------------------------------------------------------
  // VAT

  /** `calculate_vat_exclusive`: the amount before 21% VAT. */
  function VatExclusive(value: real): (r: real)
    ensures r * 1.21 == value
  {
    value / 1.21
  }

  /** Stripping VAT keeps the sign and never increases a non-negative amount. */
  lemma {:induction false} VatExclusiveBounds(value: real)
    ensures value >= 0.0 ==> 0.0 <= VatExclusive(value) <= value
    ensures value < 0.0 ==> value < VatExclusive(value) < 0.0
  {
  }

  // ---------------------------------------------------------------------------
  // perform_calculation (commissions3.py)

  /** One line of the commission report, the values the report formats. */
  datatype Line = Line(
    fecha: Cell, paciente: Cell, descripcion: Cell,
    cobrado: Cell, cobradoSinIva: real,
    costo: Cell, costoSinIva: real,
    tipo: string, porcentaje: real, comision: real)

  /** The lab-cost column of the `comisiones` table. */
  const Costelab := "Costelab"

  /** The lab cost used raw in arithmetic, as written: only a number can be
      divided or subtracted. */
  function RawCost(c: Cell): (r: Result<real>)
    ensures r.Success? <==> c.Num?
    ensures r.Failure? ==> r.error == TypeError
  {
    if c.Num? then Success(c.x) else Failure(TypeError)
  }

  /** The lab cost as a number, as intended: a number as it is, text as
      `parse_number` reads it, `None` as zero. */
  function LabCost(c: Cell): (r: real)
    ensures c.Num? ==> r == c.x
    ensures c.Str? ==> Success(r) == ParseNumber(c)
    ensures c.Null? ==> r == 0.0
  {
    match c
    case Num(x) => x
    case Str(_) => ParseNumber(c).value
    case Null => 0.0
  }

  /** `None["commission"]` when no rule of the doctor has the type. */
  function RuleFor(doctorRules: seq<Rule>, kind: string): (r: Result<Rule>)
    ensures r.Success? <==> FindRule(doctorRules, kind).Some?
    ensures r.Success? ==> r.value == FindRule(doctorRules, kind).value
    ensures r.Failure? ==> r.error == TypeError
  {
    match FindRule(doctorRules, kind)
    case None => Failure(TypeError)
    case Some(rule) => Success(rule)
  }

  /** The report line of a payment from its gross, lab cost and rule: both
      amounts before VAT exactly when the rule is for aesthetic medicine, and
      the commission as the rule's percentage of what is left after the lab
      cost. */
  function Priced(fecha: Cell, paciente: Cell, description: Cell, gross: real, cost: real, shown: real, kind: string, rule: Rule): (line: Line)
    ensures line.cobrado == Num(gross) && line.costo == Num(shown)
    ensures line.tipo == kind && line.porcentaje == rule.commission
    ensures rule.treatmentType == Aesthetic ==> line.cobradoSinIva * 1.21 == gross && line.costoSinIva * 1.21 == cost
    ensures rule.treatmentType != Aesthetic ==> line.cobradoSinIva == gross && line.costoSinIva == cost
    ensures line.comision == (line.cobradoSinIva - line.costoSinIva) * line.porcentaje / 100.0
  {
    var aesthetic := rule.treatmentType == Aesthetic;
    var net := if aesthetic then VatExclusive(gross) else gross;
    var costNet := if aesthetic then VatExclusive(cost) else cost;
    Line(fecha, paciente, description, Num(gross), net, Num(shown), costNet, kind, rule.commission, (net - costNet) * (rule.commission / 100.0))
  }

  /** The body of the loop of `perform_calculation` for a payment whose
      gross is not zero, each failure raised where the code reaches it. With
      `corrected` false the lab cost is used raw and then re-read by
      `parse_number` for display, as written; with `corrected` true it is
      read once as a number. */
  function LineOf(payment: Row, gross: real, doctorRules: seq<Rule>, doctorId: string, corrected: bool): (r: Result<Line>)
    ensures r.Success? ==> Costelab in payment && Descripcion in payment && Codigo in payment
  {
    var costo :- Get(payment, Costelab);
    var description :- Get(payment, Descripcion);
    var code :- Get(payment, Codigo);
    var kind :- GetCommissionType(doctorId, description, code);
    var rule :- RuleFor(doctorRules, kind);
    var cost :- if corrected then Success(LabCost(costo)) else RawCost(costo);
    var fecha :- Get(payment, Fecha);
    var paciente :- Get(payment, Paciente);
    var shown :- if corrected then Success(LabCost(costo)) else ParseNumber(costo);
    Success(Priced(fecha, paciente, description, gross, cost, shown, kind, rule))
  }

  /** The report line of one payment, `None` when its gross reads as zero. */
  function CommissionOf(payment: Row, doctorRules: seq<Rule>, doctorId: string, corrected: bool): (r: Result<Option<Line>>)
    ensures r.Success? ==> (r.value.None? <==> Amount(payment, ImporteBruto) == Success(0.0))
    ensures r.Success? && r.value.Some? ==>
      Amount(payment, ImporteBruto).Success? &&
      LineOf(payment, Amount(payment, ImporteBruto).value, doctorRules, doctorId, corrected) == Success(r.value.value)
  {
    var gross :- Amount(payment, ImporteBruto);
    if gross == 0.0 then Success(None)
    else
      var line :- LineOf(payment, gross, doctorRules, doctorId, corrected);
      Success(Some(line))
  }

  /** A line states the payment's gross, the type the decision table gives
      for its description and code, and the rule of that type. */
  lemma {:induction false} CommissionLine(payment: Row, gross: real, doctorRules: seq<Rule>, doctorId: string, corrected: bool, line: Line)
    requires LineOf(payment, gross, doctorRules, doctorId, corrected) == Success(line)
    ensures line.cobrado == Num(gross)
    ensures GetCommissionType(doctorId, payment[Descripcion], payment[Codigo]) == Success(line.tipo)
    ensures FindRule(doctorRules, line.tipo).Some?
    ensures var rule := FindRule(doctorRules, line.tipo).value;
      && line.porcentaje == rule.commission
      && (rule.treatmentType == Aesthetic ==> line.cobradoSinIva * 1.21 == gross)
      && (rule.treatmentType != Aesthetic ==> line.cobradoSinIva == gross)
  {
    var kind := GetCommissionType(doctorId, payment[Descripcion], payment[Codigo]).value;
    var rule := RuleFor(doctorRules, kind).value;
    assert line.tipo == kind && line.porcentaje == rule.commission;
  }

  /** As written, a line is only produced for a payment whose lab cost is a
      numeric zero: text or `None` fails the arithmetic, and any other number
      fails `parse_number` when the line is displayed. */
  lemma {:induction false} LabCostAsWritten(payment: Row, gross: real, doctorRules: seq<Rule>, doctorId: string, line: Line)
    requires LineOf(payment, gross, doctorRules, doctorId, false) == Success(line)
    ensures payment[Costelab] == Num(0.0)
  {
    var costo := payment[Costelab];
    assert RawCost(costo).Success?;
    assert ParseNumber(costo).Success?;
  }

  /** Corrected, the lab cost subtracted and shown is the number the cell
      holds. */
  lemma {:induction false} LabCostCorrected(payment: Row, gross: real, doctorRules: seq<Rule>, doctorId: string, line: Line)
    requires LineOf(payment, gross, doctorRules, doctorId, true) == Success(line)
    ensures line.costo == Num(LabCost(payment[Costelab]))
    ensures var rule := FindRule(doctorRules, line.tipo).value;
      && (rule.treatmentType == Aesthetic ==> line.costoSinIva * 1.21 == LabCost(payment[Costelab]))
      && (rule.treatmentType != Aesthetic ==> line.costoSinIva == LabCost(payment[Costelab]))
  {
    var kind := GetCommissionType(doctorId, payment[Descripcion], payment[Codigo]).value;
    var rule := RuleFor(doctorRules, kind).value;
    assert line.tipo == kind;
  }

  /** A dentistry payment of 100 with a lab cost of 30 stored as a number. */
  const LabPayment: Row := map[
    Costelab := Num(30.0), Descripcion := Str("CORONA"), Codigo := Num(440.0),
    Fecha := Str("2024-01-05T00:00:00"), Paciente := Str("P")]

  /** The only rule of doctor 11 is its regular one. */
  lemma {:induction false} OnlyElevenRule(x: Rule)
    requires x in DoctorsCommissions && x.id == "11"
    ensures x == DoctorsCommissions[6]
  {
  }

  lemma {:induction false} ElevenRegular()
    ensures RuleFor(DoctorRules(DoctorsCommissions, "11"), Regular) == Success(DoctorsCommissions[6])
  {
    var mine := DoctorRules(DoctorsCommissions, "11");
    RuleInTable("11", Regular, 6);
    OnlyElevenRule(FindRule(mine, Regular).value);
  }

  /** The cells of the payment above. */
  lemma {:induction false} LabPaymentCells()
    ensures Get(LabPayment, Costelab) == Success(Num(30.0))
    ensures Get(LabPayment, Descripcion) == Success(Str("CORONA"))
    ensures Get(LabPayment, Codigo) == Success(Num(440.0))
    ensures Get(LabPayment, Fecha).Success? && Get(LabPayment, Paciente).Success?
  {
  }

  /** As written the payment raises when its lab cost is displayed. */
  lemma {:induction false} LabCostExampleAsWritten()
    ensures LineOf(LabPayment, 100.0, DoctorRules(DoctorsCommissions, "11"), "11", false) == Failure(AttributeError)
  {
    LabPaymentCells();
    assert GetCommissionType("11", Str("CORONA"), Num(440.0)) == Success(Regular);
    ElevenRegular();
    assert RawCost(Num(30.0)) == Success(30.0);
    assert ParseNumber(Num(30.0)) == Failure(AttributeError);
  }

  /** Corrected, the payment reaches the pricing step with its lab cost read
      once as 30 and the regular rule of doctor 11. */
  lemma {:induction false} LabLineCorrected()
    ensures LineOf(LabPayment, 100.0, DoctorRules(DoctorsCommissions, "11"), "11", true)
         == Success(Priced(LabPayment[Fecha], LabPayment[Paciente], Str("CORONA"), 100.0, 30.0, 30.0, Regular, DoctorsCommissions[6]))
  {
    LabPaymentCells();
    assert GetCommissionType("11", Str("CORONA"), Num(440.0)) == Success(Regular);
    ElevenRegular();
    assert LabCost(Num(30.0)) == 30.0;
  }

  /** Corrected, it is paid 35% of 100 less 30. */
  lemma {:induction false} LabCostExampleCorrected()
    ensures LineOf(LabPayment, 100.0, DoctorRules(DoctorsCommissions, "11"), "11", true).Success?
    ensures LineOf(LabPayment, 100.0, DoctorRules(DoctorsCommissions, "11"), "11", true).value.comision == 24.5
  {
    LabLineCorrected();
    var rule := DoctorsCommissions[6];
    assert rule.treatmentType == Dentistry && rule.commission == 35.0;
    var line := Priced(LabPayment[Fecha], LabPayment[Paciente], Str("CORONA"), 100.0, 30.0, 30.0, Regular, rule);
    assert line.cobradoSinIva == 100.0 && line.costoSinIva == 30.0 && line.porcentaje == 35.0;
    assert line.comision == 70.0 * 35.0 / 100.0;
  }

  /** The payments the report does not skip: those whose gross does not read
      as zero, in input order. */
  function Billed(rows: seq<Row>): (r: seq<Row>)
    ensures |r| <= |rows|
    ensures forall p :: p in r <==> p in rows && Amount(p, ImporteBruto) != Success(0.0)
  {
    if rows == [] then []
    else (if Amount(rows[0], ImporteBruto) != Success(0.0) then [rows[0]] else []) + Billed(rows[1..])
  }

  /** The loop of `perform_calculation` over the merged rows. */
  function Calculate(rows: seq<Row>, doctorRules: seq<Rule>, doctorId: string, corrected: bool): (r: Result<seq<Line>>)
    ensures r.Success? ==> |r.value| <= |rows|
  {
    if rows == [] then Success([])
    else
      var o :- CommissionOf(rows[0], doctorRules, doctorId, corrected);
      var rest :- Calculate(rows[1..], doctorRules, doctorId, corrected);
      Success(match o case Some(line) => [line] + rest case None => rest)
  }

  /** One report line per payment not skipped, in order: the i-th line is
      the line of the i-th billed payment. */
  lemma {:induction false} CalculateLines(rows: seq<Row>, doctorRules: seq<Rule>, doctorId: string, corrected: bool, lines: seq<Line>)
    requires Calculate(rows, doctorRules, doctorId, corrected) == Success(lines)
    ensures |lines| == |Billed(rows)|
    ensures forall i :: 0 <= i < |lines| ==>
      CommissionOf(Billed(rows)[i], doctorRules, doctorId, corrected) == Success(Some(lines[i]))
  {
    if rows != [] {
      assert CommissionOf(rows[0], doctorRules, doctorId, corrected).Success?;
      assert Calculate(rows[1..], doctorRules, doctorId, corrected).Success?;
      var o := CommissionOf(rows[0], doctorRules, doctorId, corrected).value;
      var rest := Calculate(rows[1..], doctorRules, doctorId, corrected).value;
      assert lines == match o case Some(line) => [line] + rest case None => rest;
      CalculateLines(rows[1..], doctorRules, doctorId, corrected, rest);
      if o.Some? {
        assert Billed(rows) == [rows[0]] + Billed(rows[1..]);
        assert lines == [o.value] + rest;
        forall i | 0 <= i < |lines|
          ensures CommissionOf(Billed(rows)[i], doctorRules, doctorId, corrected) == Success(Some(lines[i]))
        {
          if i > 0 {
            assert Billed(rows)[i] == Billed(rows[1..])[i - 1];
            assert lines[i] == rest[i - 1];
          }
        }
      } else {
        assert Billed(rows) == Billed(rows[1..]);
      }
    }
  }

  /** `perform_calculation`: the month's payments merged in pairs, then one
      line per payment with a non-zero gross, using the doctor's rules. */
  function PerformCalculation(payments: seq<Row>, rules: seq<Rule>, doctorId: string, monthName: string, monthOf: MonthParser, corrected: bool): (r: Result<seq<Line>>)
    ensures MergeInPairs(payments, monthName, monthOf, corrected).Failure? ==> r.Failure?
    ensures r.Success? ==>
      var merged := MergeInPairs(payments, monthName, monthOf, corrected).value;
      && MergeInPairs(payments, monthName, monthOf, corrected).Success?
      && |r.value| == |Billed(merged)|
      && forall i :: 0 <= i < |r.value| ==>
           CommissionOf(Billed(merged)[i], DoctorRules(rules, doctorId), doctorId, corrected) == Success(Some(r.value[i]))
  {
    var merged :- MergeInPairs(payments, monthName, monthOf, corrected);
    var lines :- Calculate(merged, DoctorRules(rules, doctorId), doctorId, corrected);
    CalculateLines(merged, DoctorRules(rules, doctorId), doctorId, corrected, lines);
    Success(lines)
  }

  /** A month name outside the twelve-name table yields no lines. */
  lemma {:induction false} PerformCalculationUnknownMonth(payments: seq<Row>, rules: seq<Rule>, doctorId: string, monthName: string, monthOf: MonthParser, corrected: bool)
    requires MonthNumber(monthName).None?
    requires PerformCalculation(payments, rules, doctorId, monthName, monthOf, corrected).Success?
    ensures PerformCalculation(payments, rules, doctorId, monthName, monthOf, corrected).value == []
  {
    SelectUnknownMonth(payments, monthName, monthOf);
  }

  /** A merged pair carries the `Coste lab.` column of the report export but
      not the `Costelab` column `perform_calculation` reads. */
  lemma {:induction false} MergedPairLacksLabCost(e1: Row, e2: Row, r: Row)
    requires MergePair(e1, e2) == Success(r)
    ensures Costelab !in r
  {
    MergePairKeys(e1, e2, r);
    assert Costelab !in CopiedColumns;
  }

  /** So `perform_calculation` raises `KeyError` on a merged pair unless its
      gross reads as zero, which skips the pair before the lab cost is read. */
  lemma {:induction false} MergedPairRaises(e1: Row, e2: Row, r: Row, doctorRules: seq<Rule>, doctorId: string, corrected: bool)
    requires MergePair(e1, e2) == Success(r)
    requires Amount(r, ImporteBruto) != Success(0.0)
    ensures CommissionOf(r, doctorRules, doctorId, corrected) == Failure(KeyError)
  {
    MergedPairLacksLabCost(e1, e2, r);
    MergePairAmounts(e1, e2, r);
  }

  // ---------------------------------------------------------------------------
  // perform_commission_calculation (calculate_commissions.py)

  /** The query window of a month: from its first day at midnight to its last
      day at 23:59:59. */
  function MonthWindow(monthName: string, year: int): (r: Result<(DateTime, DateTime)>)
    ensures r.Failure? <==> TargetMonth(monthName).Failure?
    ensures r.Failure? ==> r.error == ValueError
  {
    var m :- TargetMonth(monthName);
    Success((DateTime(year, m, 1, 0, 0, 0), DateTime(year, m, DaysInMonth(year, m), 23, 59, 59)))
  }

  /** Both ends of the window are real instants. */
  lemma {:induction false} MonthWindowValid(monthName: string, year: int)
    requires 1 <= year <= 9999
    requires MonthWindow(monthName, year).Success?
    ensures Valid(MonthWindow(monthName, year).value.0) && Valid(MonthWindow(monthName, year).value.1)
    ensures NotAfter(MonthWindow(monthName, year).value.0, MonthWindow(monthName, year).value.1)
  {
  }

  /** The window holds exactly the instants of the named month. */
  lemma {:induction false} MonthWindowIsMonth(monthName: string, year: int, d: DateTime)
    requires MonthWindow(monthName, year).Success?
    requires Valid(d)
    ensures var w := MonthWindow(monthName, year).value;
      NotAfter(w.0, d) && NotAfter(d, w.1) <==> d.year == year && d.month == TargetMonth(monthName).value
  {
  }

  /** `perform_commission_calculation`: the window of the month, the payments
      the database returns for it, and `perform_calculation` on them. The
      database query is the parameter `fetch`. */
  function PerformCommissionCalculation(
    rules: seq<Rule>, doctorId: string, monthName: string, year: int,
    fetch: (DateTime, DateTime) -> seq<Row>, monthOf: MonthParser, corrected: bool): (r: Result<seq<Line>>)
    ensures TargetMonth(monthName).Failure? ==> r == Failure(ValueError)
  {
    var window :- MonthWindow(monthName, year);
    PerformCalculation(fetch(window.0, window.1), rules, doctorId, monthName, monthOf, corrected)
  }

  // ---------------------------------------------------------------------------
  // perform_calculation2 (calculate_commissions.py)

  /** The patients table: code to "como nos conocio". */
  type Patients = map<Cell, string>

  /** `s.lower()` on a cell: only text has it. */
  function LowerCell(c: Cell): (r: Result<string>)
    ensures r.Success? <==> c.Str?
    ensures r.Success? ==> r.value == Lower(c.s)
  {
    if c.Str? then Success(Lower(c.s)) else Failure(AttributeError)
  }

  /** `float(payment[column].replace(",", "."))`. */
  function FloatCell(payment: Row, column: string): (r: Result<real>)
    ensures r.Success? <==> column in payment && payment[column].Str? && ReadFloat(ReplaceChar(payment[column].s, ',', '.')).Some?
  {
    var c :- Get(payment, column);
    if !c.Str? then Failure(AttributeError)
    else match ReadFloat(ReplaceChar(c.s, ',', '.'))
      case None => Failure(ValueError)
      case Some(x) => Success(x)
  }

  /** `patients.get(code)`. */
  function Referral(patients: Patients, code: Cell): Option<string> {
    if code in patients then Some(patients[code]) else None
  }

  /** `payment.get("Descripción", "").lower()`. */
  function LoweredDescription(payment: Row): Result<string> {
    LowerCell(if Descripcion in payment then payment[Descripcion] else Str(""))
  }

  /** The report line of `perform_calculation2` from the amounts read: both
      amounts before VAT rounded to cents exactly when the rule is for
      aesthetic medicine, and the commission the rule's percentage of what is
      left after the lab cost, rounded to cents. */
  function Priced2(fecha: Cell, paciente: Cell, description: Cell, cobradoCell: Cell, cobrado: real, costoCell: Cell, costo: real, kind: string, rule: Rule): (line: Line)
    ensures line.cobrado == cobradoCell && line.costo == costoCell
    ensures line.tipo == kind && line.porcentaje == rule.commission
    ensures rule.treatmentType == Aesthetic ==>
      && NearVatExclusive(line.cobradoSinIva, cobrado) && WholeCents(line.cobradoSinIva)
      && NearVatExclusive(line.costoSinIva, costo) && WholeCents(line.costoSinIva)
    ensures rule.treatmentType != Aesthetic ==> line.cobradoSinIva == cobrado && line.costoSinIva == costo
    ensures NearShare(line.comision, line.cobradoSinIva - line.costoSinIva, line.porcentaje) && WholeCents(line.comision)
  {
    if rule.treatmentType == Aesthetic then
      var net, cost := VatExclusiveCents(cobrado), VatExclusiveCents(costo);
      Line(fecha, paciente, description, cobradoCell, net, costoCell, cost, kind, rule.commission, RoundedShare(net - cost, rule.commission))
    else
      Line(fecha, paciente, description, cobradoCell, cobrado, costoCell, costo, kind, rule.commission, RoundedShare(cobrado - costo, rule.commission))
  }

  /** A whole number of cents. */
  predicate WholeCents(x: real) {
    (x * 100.0).Floor as real == x * 100.0
  }

  /** `r` is `amount` before 21% VAT, up to rounding to the nearest cent. */
  predicate NearVatExclusive(r: real, amount: real) {
    -(1.21 / 200.0) <= r * 1.21 - amount <= 1.21 / 200.0
  }

  /** `c` is `percentage` percent of `net`, up to rounding to the nearest cent. */
  predicate NearShare(c: real, net: real, percentage: real) {
    -(1.0 / 200.0) <= c - net * percentage / 100.0 <= 1.0 / 200.0
  }

  /** `round(amount / (1 + vat / 100), 2)` with a VAT of 21%: the amount
      before VAT, to the nearest cent. */
  function VatExclusiveCents(amount: real): (r: real)
    ensures NearVatExclusive(r, amount) && WholeCents(r)
  {
    var exact := amount / (1.0 + 21.0 / 100.0);
    var r := Round2(exact);
    assert r * 1.21 - amount == (r - exact) * 1.21;
    r
  }

  /** `round((net_amount * commission_percentage) / 100, 2)`. */
  function RoundedShare(net: real, percentage: real): (c: real)
    ensures NearShare(c, net, percentage) && WholeCents(c)
  {
    Round2(net * percentage / 100.0)
  }

  /** The amounts and display columns of a payment that has a rule, each
      failure raised where the loop body reaches it. */
  function Line2Of(payment: Row, kind: string, rule: Rule): (r: Result<Line>)
    ensures r.Success? ==> FloatCell(payment, Cobrado).Success? && FloatCell(payment, CosteLab).Success?
  {
    var cobrado :- FloatCell(payment, Cobrado);
    var costo :- FloatCell(payment, CosteLab);
    var fecha :- Get(payment, Fecha);
    var paciente :- Get(payment, Paciente);
    var description :- Get(payment, Descripcion);
    Success(Priced2(fecha, paciente, description, payment[Cobrado], cobrado, payment[CosteLab], costo, kind, rule))
  }

  /** A line of `perform_calculation2` shows the payment's own amount cells
      and holds the amounts read from them, before VAT to the cent exactly
      when the rule is for aesthetic medicine. */
  lemma {:induction false} Commission2Line(payment: Row, kind: string, rule: Rule, line: Line)
    requires Line2Of(payment, kind, rule) == Success(line)
    ensures Cobrado in payment && CosteLab in payment
    ensures line.cobrado == payment[Cobrado] && line.costo == payment[CosteLab]
    ensures line.tipo == kind && line.porcentaje == rule.commission
    ensures var cobrado := FloatCell(payment, Cobrado).value;
      var costo := FloatCell(payment, CosteLab).value;
      && (rule.treatmentType == Aesthetic ==>
           NearVatExclusive(line.cobradoSinIva, cobrado) && NearVatExclusive(line.costoSinIva, costo))
      && (rule.treatmentType != Aesthetic ==> line.cobradoSinIva == cobrado && line.costoSinIva == costo)
  {
  }

  /** The report line of one payment in `perform_calculation2`, `None` for a
      payment without a code or without a rule for its type. */
  function Commission2Of(payment: Row, doctorRules: seq<Rule>, doctorId: string, patients: Patients): (r: Result<Option<Line>>)
    ensures r.Success? ==> Codigo in payment
  {
    var code :- Get(payment, Codigo);
    if !Truthy(code) then Success(None)
    else
      var description :- LoweredDescription(payment);
      var kind := KindFor(doctorId, description, Referral(patients, code));
      match FindRule(doctorRules, kind)
      case None => Success(None)
      case Some(rule) =>
        var line :- Line2Of(payment, kind, rule);
        Success(Some(line))
  }

  /** A payment is skipped exactly when its code is falsy or no rule of the
      doctor has the type its description and referral source give; a line
      is the line of the rule found. */
  lemma {:induction false} Commission2Skips(payment: Row, doctorRules: seq<Rule>, doctorId: string, patients: Patients)
    requires Commission2Of(payment, doctorRules, doctorId, patients).Success?
    ensures Truthy(payment[Codigo]) ==> LoweredDescription(payment).Success?
    ensures var code := payment[Codigo];
      Commission2Of(payment, doctorRules, doctorId, patients).value.None? <==>
        || !Truthy(code)
        || FindRule(doctorRules, KindFor(doctorId, LoweredDescription(payment).value, Referral(patients, code))).None?
    ensures var code := payment[Codigo];
      var o := Commission2Of(payment, doctorRules, doctorId, patients).value;
      o.Some? ==>
        var kind := KindFor(doctorId, LoweredDescription(payment).value, Referral(patients, code));
        Line2Of(payment, kind, FindRule(doctorRules, kind).value) == Success(o.value)
  {
  }

  /** The body of a report loop: a payment's line, or `None` to skip it. */
  type Step = Row -> Result<Option<Line>>

  /** The body of the loop of `perform_calculation2` for one doctor. */
  function Step2(doctorRules: seq<Rule>, doctorId: string, patients: Patients): Step {
    p => Commission2Of(p, doctorRules, doctorId, patients)
  }

  /** A loop body that only succeeds on payments with a code. */
  ghost predicate NeedsCode(step: Step) {
    forall p :: step(p).Success? ==> Codigo in p
  }

  lemma {:induction false} Step2NeedsCode(doctorRules: seq<Rule>, doctorId: string, patients: Patients)
    ensures NeedsCode(Step2(doctorRules, doctorId, patients))
  {
  }

  /** The lines of a report loop over `payments`, the first failure raised. */
  function Lines(payments: seq<Row>, step: Step): Result<seq<Line>> {
    if payments == [] then Success([])
    else
      var n := |payments| - 1;
      var init :- Lines(payments[..n], step);
      var o :- step(payments[n]);
      Success(match o case Some(line) => init + [line] case None => init)
  }

  /** One more pass of a successful loop adds the line of the next payment,
      if it has one, and keeps the totals in step. */
  lemma {:induction false} LinesExtend(payments: seq<Row>, step: Step, i: nat, lines: seq<Line>)
    requires i < |payments|
    requires Lines(payments[..i], step) == Success(lines)
    requires step(payments[i]).Success?
    ensures step(payments[i]).value.Some? ==>
      var line := step(payments[i]).value.value;
      && Lines(payments[..i + 1], step) == Success(lines + [line])
      && SumCommission(lines + [line]) == SumCommission(lines) + line.comision
      && SumClinic(lines + [line]) == SumClinic(lines) + (line.cobradoSinIva - line.costoSinIva - line.comision)
    ensures step(payments[i]).value.None? ==> Lines(payments[..i + 1], step) == Success(lines)
  {
    assert payments[..i + 1][..i] == payments[..i];
    if step(payments[i]).value.Some? {
      var line := step(payments[i]).value.value;
      assert (lines + [line])[..|lines|] == lines;
    }
  }

  /** A failing prefix fails the whole loop with the same error. */
  lemma {:induction false} LinesFailure(payments: seq<Row>, step: Step, i: nat)
    requires i <= |payments|
    requires Lines(payments[..i], step).Failure?
    ensures Lines(payments, step) == Lines(payments[..i], step)
    decreases |payments| - i
  {
    if i < |payments| {
      var n := |payments| - 1;
      assert payments[..n][..i] == payments[..i];
      LinesFailure(payments[..n], step, i);
    } else {
      assert payments[..i] == payments;
    }
  }

  /** Every payment of a successful loop has a code. */
  lemma {:induction false} LinesCodes(payments: seq<Row>, step: Step)
    requires NeedsCode(step)
    requires Lines(payments, step).Success?
    ensures forall i :: 0 <= i < |payments| ==> Codigo in payments[i]
  {
    if payments != [] {
      var n := |payments| - 1;
      LinesCodes(payments[..n], step);
      assert forall i :: 0 <= i < n ==> payments[..n][i] == payments[i];
    }
  }

  /** One line per payment not skipped, in order: the lines of a successful
      loop are the lines of the payments `step` keeps, so there are at most
      as many as payments. */
  lemma {:induction false} LinesKept(payments: seq<Row>, step: Step)
    requires Lines(payments, step).Success?
    ensures |Lines(payments, step).value| <= |payments|
    ensures forall i :: 0 <= i < |payments| ==> step(payments[i]).Success?
    ensures Lines(payments, step).value == Kept(payments, step)
  {
    if payments != [] {
      var n := |payments| - 1;
      LinesKept(payments[..n], step);
      assert forall i :: 0 <= i < n ==> payments[..n][i] == payments[i];
    }
  }

  /** The lines of the payments `step` keeps, in input order: the reference
      the loop is measured against. */
  ghost function Kept(payments: seq<Row>, step: Step): seq<Line> {
    if payments == [] then []
    else
      var n := |payments| - 1;
      var o := step(payments[n]);
      Kept(payments[..n], step) + (if o.Success? && o.value.Some? then [o.value.value] else [])
  }

  /** The sum of the commissions of `lines`. */
  function SumCommission(lines: seq<Line>): real {
    if lines == [] then 0.0 else SumCommission(lines[..|lines| - 1]) + lines[|lines| - 1].comision
  }

  /** What the clinic keeps of `lines`: each net amount less its commission. */
  function SumClinic(lines: seq<Line>): real {
    if lines == [] then 0.0
    else
      var l := lines[|lines| - 1];
      SumClinic(lines[..|lines| - 1]) + (l.cobradoSinIva - l.costoSinIva - l.comision)
  }

  /** The net amount of `lines`: collected before VAT less lab cost. */
  function SumNet(lines: seq<Line>): real {
    if lines == [] then 0.0
    else
      var l := lines[|lines| - 1];
      SumNet(lines[..|lines| - 1]) + (l.cobradoSinIva - l.costoSinIva)
  }

  /** The two totals split the net amount between doctor and clinic. */
  lemma {:induction false} TotalsSplitNet(lines: seq<Line>)
    ensures SumCommission(lines) + SumClinic(lines) == SumNet(lines)
  {
    if lines != [] {
      TotalsSplitNet(lines[..|lines| - 1]);
    }
  }

  /** The distinct codes of `payments`: the unique-patients set. */
  function Codes(payments: seq<Row>): (s: set<Cell>)
    requires forall i :: 0 <= i < |payments| ==> Codigo in payments[i]
    ensures |s| <= |payments|
  {
    if payments == [] then {}
    else
      var n := |payments| - 1;
      Codes(payments[..n]) + {payments[n][Codigo]}
  }

  /** The set holds the code of every payment, skipped ones included, and
      nothing else. */
  lemma {:induction false} CodesOfPayments(payments: seq<Row>, c: Cell)
    requires forall i :: 0 <= i < |payments| ==> Codigo in payments[i]
    ensures c in Codes(payments) <==> exists i :: 0 <= i < |payments| && payments[i][Codigo] == c
  {
    if payments != [] {
      var n := |payments| - 1;
      CodesOfPayments(payments[..n], c);
      if c in Codes(payments[..n]) {
        var i :| 0 <= i < n && payments[..n][i][Codigo] == c;
        assert payments[i] == payments[..n][i];
      }
      if exists i :: 0 <= i < |payments| && payments[i][Codigo] == c {
        var i :| 0 <= i < |payments| && payments[i][Codigo] == c;
        if i < n {
          assert payments[..n][i] == payments[i];
        }
      }
    }
  }

  /** There is a patient to count exactly when there is a payment. */
  lemma {:induction false} CodesNonEmpty(payments: seq<Row>)
    requires forall i :: 0 <= i < |payments| ==> Codigo in payments[i]
    ensures |Codes(payments)| > 0 <==> payments != []
  {
    if payments != [] {
      CodesOfPayments(payments, payments[0][Codigo]);
    }
  }

  /** The totals of `perform_calculation2`. */
  datatype Analytics = Analytics(totalCommission: real, totalForClinic: real, patients: nat, productivity: real)

  /** The loop of `perform_calculation2` over any loop body: the lines of
      the payments, with the commission and the clinic's share summed as
      they are appended. */
  method ReportLoop(payments: seq<Row>, step: Step) returns (r: Result<(seq<Line>, real, real)>)
    ensures r.Failure? ==> Lines(payments, step) == Failure(r.error)
    ensures r.Success? ==> Lines(payments, step) == Success(r.value.0)
    ensures r.Success? <==> Lines(payments, step).Success?
    ensures r.Success? ==> r.value.1 == SumCommission(r.value.0) && r.value.2 == SumClinic(r.value.0)
  {
    var lines: seq<Line> := [];
    var totalCommission := 0.0;
    var totalForClinic := 0.0;
    var i := 0;
    while i < |payments|
      invariant 0 <= i <= |payments|
      invariant Lines(payments[..i], step) == Success(lines)
      invariant totalCommission == SumCommission(lines)
      invariant totalForClinic == SumClinic(lines)
    {
      var o := step(payments[i]);
      if o.Failure? {
        assert payments[..i + 1][..i] == payments[..i];
        LinesFailure(payments, step, i + 1);
        return Failure(o.error);
      }
      LinesExtend(payments, step, i, lines);
      if o.value.Some? {
        var line := o.value.value;
        lines := lines + [line];
        totalCommission := totalCommission + line.comision;
        totalForClinic := totalForClinic + (line.cobradoSinIva - line.costoSinIva - line.comision);
      }
      i := i + 1;
    }
    assert payments[..i] == payments;
    r := Success((lines, totalCommission, totalForClinic));
  }

  /** `perform_calculation2`: the report lines of the doctor's payments and
      the totals. Unique patients are counted over every payment, skipped
      ones included; productivity is zero when there are none. */
  method PerformCalculation2(payments: seq<Row>, allRules: seq<Rule>, doctorId: string, patients: Patients)
    returns (r: Result<(seq<Line>, Analytics)>)
    ensures var step := Step2(DoctorRules(allRules, doctorId), doctorId, patients);
      r.Failure? ==> Lines(payments, step) == Failure(r.error)
    ensures var step := Step2(DoctorRules(allRules, doctorId), doctorId, patients);
      r.Success? ==> Lines(payments, step) == Success(r.value.0)
    ensures var step := Step2(DoctorRules(allRules, doctorId), doctorId, patients);
      r.Success? <==> Lines(payments, step).Success?
    ensures r.Success? ==>
      var (lines, a) := r.value;
      && (forall i :: 0 <= i < |payments| ==> Codigo in payments[i])
      && a.totalCommission == SumCommission(lines)
      && a.totalForClinic == SumClinic(lines)
      && a.patients == |Codes(payments)|
      && a.productivity == (if a.patients > 0 then a.totalForClinic / a.patients as real else 0.0)
  {
    var step := Step2(DoctorRules(allRules, doctorId), doctorId, patients);
    var report := ReportLoop(payments, step);
    if report.Failure? {
      return Failure(report.error);
    }
    var (lines, totalCommission, totalForClinic) := report.value;
    Step2NeedsCode(DoctorRules(allRules, doctorId), doctorId, patients);
    LinesCodes(payments, step);
    var codes := Codes(payments);
    var productivity := if |codes| > 0 then totalForClinic / |codes| as real else 0.0;
    r := Success((lines, Analytics(totalCommission, totalForClinic, |codes|, productivity)));
  }
}
