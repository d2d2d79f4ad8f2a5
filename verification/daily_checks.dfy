/** The daily reconciliation of Doctoralia appointments against Cliniwin
  treatments (`daily_checks.py`).

  Rows are records of text cells. Per day three independent checks run: an
  appointment in an unexpected state, a finished visit with no treatment under
  the same patient name, and a finished visit booked with a different doctor
  than the one who recorded the treatment.
 */
module DailyChecks {
  import opened Wrappers
  import opened Text
  import opened Fuzzy
  import opened Dicts

  /** A Doctoralia appointment row as the parser yields it; `Paciente` may be
      missing (`None`). */
  datatype AppointmentRow = AppointmentRow(fecha: string, paciente: Option<string>, especialista: string, estado: string)

  /** An appointment that survived the patient filter: its `Paciente` is text. */
  datatype Appointment = Appointment(fecha: string, paciente: string, especialista: string, estado: string)

  /** A Cliniwin treatment row. */
  datatype Treatment = Treatment(fechaRealizado: string, nombre: string, apellido1: string, apellido2: string, numDoctor: string)

  datatype AlertKind =
    | InvalidState                             // "Estado invalido"
    | MissingTreatment(suggestions: seq<string>)  // "Tratamiento inexistente"
    | WrongDoctor(cliniwinDoctor: string)         // "Doctor erroneo"

  /** An alert; `data` is the appointment it is about. The message text is
      not modelled, only what it reports. */
  datatype Alert = Alert(kind: AlertKind, data: Appointment)

  const VisitDone := "Visita realizada"
  const AllowedStatuses: set<string> := {"Visita realizada", "No ha venido", "Cancelada"}

  /** Doctor numbers and names, in the table's order. */
  const Doctors: seq<(string, string)> := [
    ("15", "Anna Pevrukhina"),
    ("14", "Juan Millet"),
    ("11", "Alejandro Cordero"),
    ("2", "Agusti Ferrando i Estrella"),
    ("18", "Claudia Degens"),
    ("22", "Dayana Arizaka Riquelme"),
    ("21", "Anna Shchilova"),
    ("10", "Macarena Remohi Mart\U{ED}nez-Medina"),
    ("20", "Melissa Rivera"),
    ("23", "Carmen Herrero"),
    ("7", "Mar\U{ED}a Florencia Cerviche")
  ]

  /** Doctor `'18'` is never reported by the doctor check. */
  const ExemptDoctor := "18"

  /** The first doctor number whose name is `name`, from the list
      comprehension over `doctors.items()`. */
  function DoctorNumber(name: string): (r: Option<string>)
    ensures r.None? <==> forall i :: 0 <= i < |Doctors| ==> Doctors[i].1 != name
    ensures r.Some? ==> (r.value, name) in Doctors
  {
    DoctorNumberFrom(name, 0)
  }

  function DoctorNumberFrom(name: string, i: nat): (r: Option<string>)
    requires i <= |Doctors|
    ensures r.None? <==> forall k :: i <= k < |Doctors| ==> Doctors[k].1 != name
    ensures r.Some? ==> (r.value, name) in Doctors
    decreases |Doctors| - i
  {
    if i == |Doctors| then None
    else if Doctors[i].1 == name then Some(Doctors[i].0)
    else DoctorNumberFrom(name, i + 1)
  }

  /** `doctors.get(number, "Desconocido")`. */
  function DoctorName(number: string): (r: string)
    ensures r == "Desconocido" <==> forall i :: 0 <= i < |Doctors| ==> Doctors[i].0 != number
    ensures r != "Desconocido" ==> (number, r) in Doctors
  {
    DoctorNameFrom(number, 0)
  }

  function DoctorNameFrom(number: string, i: nat): (r: string)
    requires i <= |Doctors|
    ensures r == "Desconocido" <==> forall k :: i <= k < |Doctors| ==> Doctors[k].0 != number
    ensures r != "Desconocido" ==> (number, r) in Doctors
    decreases |Doctors| - i
  {
    if i == |Doctors| then "Desconocido"
    else if Doctors[i].0 == number then Doctors[i].1
    else DoctorNameFrom(number, i + 1)
  }

  // ---------------------------------------------------------------------------
  // Names

  /** `normalize_name`: lower-case, strip, and collapse whitespace runs into
      single spaces. */
  function NormalizeName(name: string): string {
    Join(Words(Strip(Lower(name))))
  }

  /** A normalised name is lower-case, has no surrounding whitespace, and its
      only whitespace is single `' '` separators. */
  lemma {:induction false} NormalizeNameShape(name: string)
    ensures var r := NormalizeName(name);
      && IsLower(r)
      && (r == [] || (!IsSpace(r[0]) && !IsSpace(r[|r| - 1])))
      && (forall i :: 0 <= i < |r| && IsSpace(r[i]) ==> r[i] == ' ')
      && (forall i :: 0 <= i < |r| - 1 ==> !(IsSpace(r[i]) && IsSpace(r[i + 1])))
  {
    var t := Strip(Lower(name));
    LowerShape(name);
    LowerStrip(name);
    LowerShape(Strip(name));
    WordsLower(t);
    WordsWellFormed(t);
    JoinLower(Words(t));
    JoinShape(Words(t));
  }

  /** Normalising twice is normalising once. */
  lemma {:induction false} NormalizeNameIdempotent(name: string)
    ensures NormalizeName(NormalizeName(name)) == NormalizeName(name)
  {
    var ws := Words(Strip(Lower(name)));
    var r := Join(ws);
    NormalizeNameShape(name);
    WordsWellFormed(Strip(Lower(name)));
    LowerShape(r);
    StripUnchanged(r);
    WordsOfJoin(ws);
  }

  /** Stripping before normalising changes nothing, so the treatment names
      built with and without the extra `.strip()` agree. */
  lemma {:induction false} NormalizeNameStripped(name: string)
    ensures NormalizeName(Strip(name)) == NormalizeName(name)
  {
    LowerStrip(name);
    WordsStrip(Lower(Strip(name)));
    WordsStrip(Lower(name));
  }

  /** `f"{Nombre} {Apellido 1} {Apellido 2}"`. */
  function FullName(t: Treatment): string {
    t.nombre + " " + t.apellido1 + " " + t.apellido2
  }

  /** The key of a treatment in the doctor check's mapping. */
  function Key(t: Treatment): string {
    NormalizeName(FullName(t))
  }

  /** The treatment names the treatment check compares against, one per
      treatment, duplicates kept. */
  function ClinicNames(treatments: seq<Treatment>): (r: seq<string>)
    ensures |r| == |treatments|
    ensures forall i :: 0 <= i < |r| ==> r[i] == Key(treatments[i])
  {
    var r := seq(|treatments|, i requires 0 <= i < |treatments| => NormalizeName(Strip(FullName(treatments[i]))));
    forall i | 0 <= i < |r|
      ensures r[i] == Key(treatments[i])
    {
      NormalizeNameStripped(FullName(treatments[i]));
    }
    r
  }

  // ---------------------------------------------------------------------------
  // Per-appointment checks

  /** The alerts of each appointment in turn, in appointment order. */
  function Concat(appts: seq<Appointment>, check: Appointment -> seq<Alert>): seq<Alert> {
    if appts == [] then [] else check(appts[0]) + Concat(appts[1..], check)
  }

  lemma {:induction false} ConcatAppend(a: seq<Appointment>, b: seq<Appointment>, check: Appointment -> seq<Alert>)
    ensures Concat(a + b, check) == Concat(a, check) + Concat(b, check)
  {
    if a == [] {
      assert a + b == b;
    } else {
      var c := a + b;
      assert c[0] == a[0];
      assert c[1..] == a[1..] + b;
      ConcatAppend(a[1..], b, check);
    }
  }

  lemma ConcatOne(x: Appointment, check: Appointment -> seq<Alert>)
    ensures Concat([x], check) == check(x)
  {
    assert [x][1..] == [];
  }

  /** Every alert comes from one of the appointments. */
  lemma {:induction false} ConcatFrom(appts: seq<Appointment>, check: Appointment -> seq<Alert>, j: nat)
    requires j < |Concat(appts, check)|
    ensures exists i :: 0 <= i < |appts| && Concat(appts, check)[j] in check(appts[i])
  {
    var h := check(appts[0]);
    if j >= |h| {
      ConcatFrom(appts[1..], check, j - |h|);
      var i :| 0 <= i < |appts| - 1 && Concat(appts[1..], check)[j - |h|] in check(appts[1..][i]);
      assert appts[1..][i] == appts[i + 1];
    }
  }

  /** At most one alert per appointment gives at most one alert per appointment. */
  lemma {:induction false} ConcatSize(appts: seq<Appointment>, check: Appointment -> seq<Alert>)
    requires forall i :: 0 <= i < |appts| ==> |check(appts[i])| <= 1
    ensures |Concat(appts, check)| <= |appts|
  {
    if appts != [] {
      ConcatSize(appts[1..], check);
    }
  }

  /** The alert of `check_state` for one appointment, if any. */
  function StateAlerts(a: Appointment): seq<Alert> {
    if a.estado in AllowedStatuses then [] else [Alert(InvalidState, a)]
  }


  /** `check_state`. */
  function CheckState(appts: seq<Appointment>): (r: seq<Alert>)
    ensures |r| <= |appts|
    ensures forall j :: 0 <= j < |r| ==>
      r[j].kind == InvalidState && r[j].data in appts && r[j].data.estado !in AllowedStatuses
  {
    var r := Concat(appts, StateAlerts);
    ConcatSize(appts, StateAlerts);
    forall j | 0 <= j < |r|
      ensures r[j].kind == InvalidState && r[j].data in appts && r[j].data.estado !in AllowedStatuses
    {
      ConcatFrom(appts, StateAlerts, j);
    }
    r
  }

  /** Alerts of consecutive runs of appointments follow each other. */
  lemma CheckStateAppend(a: seq<Appointment>, b: seq<Appointment>)
    ensures CheckState(a + b) == CheckState(a) + CheckState(b)
  {
    ConcatAppend(a, b, StateAlerts);
  }

  /** One appointment gets one alert exactly when its state is not allowed. */
  lemma CheckStateOne(x: Appointment)
    ensures CheckState([x]) == if x.estado in AllowedStatuses then [] else [Alert(InvalidState, x)]
  {
    ConcatOne(x, StateAlerts);
  }

  /** The alert of `check_treatments` for one appointment, if any. */
  function TreatmentAlerts(a: Appointment, names: seq<string>, sim: Similarity): seq<Alert> {
    if a.estado != VisitDone then []
    else
      var patient := NormalizeName(a.paciente);
      if patient in names then [] else [Alert(MissingTreatment(Suggestions(patient, names, sim)), a)]
  }


  function TreatmentCheck(names: seq<string>, sim: Similarity): Appointment -> seq<Alert> {
    a => TreatmentAlerts(a, names, sim)
  }

  lemma TreatmentAlertsAbout(a: Appointment, names: seq<string>, sim: Similarity, x: Alert)
    requires x in TreatmentCheck(names, sim)(a)
    ensures && x.kind.MissingTreatment? && x.data == a && a.estado == VisitDone
            && NormalizeName(a.paciente) !in names
            && |x.kind.suggestions| <= 3
            && (forall k :: 0 <= k < |x.kind.suggestions| ==> x.kind.suggestions[k] in names)
  {
  }

  /** A name is among the treatment names exactly when some treatment has it
      as its key. */
  lemma ClinicNamesHas(treatments: seq<Treatment>, name: string)
    ensures name in ClinicNames(treatments) <==> exists i :: 0 <= i < |treatments| && Key(treatments[i]) == name
  {
    var names := ClinicNames(treatments);
    if name in names {
      var i :| 0 <= i < |names| && names[i] == name;
      assert Key(treatments[i]) == name;
    }
    if exists i :: 0 <= i < |treatments| && Key(treatments[i]) == name {
      var i :| 0 <= i < |treatments| && Key(treatments[i]) == name;
      assert names[i] == name;
    }
  }

  /** `check_treatments`. */
  function CheckTreatments(appts: seq<Appointment>, treatments: seq<Treatment>, sim: Similarity): (r: seq<Alert>)
    ensures |r| <= |appts|
    ensures forall j :: 0 <= j < |r| ==>
      && r[j].kind.MissingTreatment?
      && r[j].data in appts
      && r[j].data.estado == VisitDone
      && (forall i :: 0 <= i < |treatments| ==> Key(treatments[i]) != NormalizeName(r[j].data.paciente))
      && |r[j].kind.suggestions| <= 3
      && (forall k :: 0 <= k < |r[j].kind.suggestions| ==> r[j].kind.suggestions[k] in ClinicNames(treatments))
  {
    var names := ClinicNames(treatments);
    var r := Concat(appts, TreatmentCheck(names, sim));
    ConcatSize(appts, TreatmentCheck(names, sim));
    forall j | 0 <= j < |r|
      ensures && r[j].kind.MissingTreatment?
              && r[j].data in appts
              && r[j].data.estado == VisitDone
              && (forall i :: 0 <= i < |treatments| ==> Key(treatments[i]) != NormalizeName(r[j].data.paciente))
              && |r[j].kind.suggestions| <= 3
              && (forall k :: 0 <= k < |r[j].kind.suggestions| ==> r[j].kind.suggestions[k] in names)
    {
      ConcatFrom(appts, TreatmentCheck(names, sim), j);
      var i :| 0 <= i < |appts| && r[j] in TreatmentCheck(names, sim)(appts[i]);
      TreatmentAlertsAbout(appts[i], names, sim, r[j]);
      ClinicNamesHas(treatments, NormalizeName(r[j].data.paciente));
    }
    r
  }

  lemma CheckTreatmentsAppend(a: seq<Appointment>, b: seq<Appointment>, treatments: seq<Treatment>, sim: Similarity)
    ensures CheckTreatments(a + b, treatments, sim) == CheckTreatments(a, treatments, sim) + CheckTreatments(b, treatments, sim)
  {
    ConcatAppend(a, b, TreatmentCheck(ClinicNames(treatments), sim));
  }

  /** One appointment gets one alert exactly when it is a finished visit and
      no treatment carries its normalised patient name. */
  lemma CheckTreatmentsOne(x: Appointment, treatments: seq<Treatment>, sim: Similarity)
    ensures |CheckTreatments([x], treatments, sim)| <= 1
    ensures CheckTreatments([x], treatments, sim) != [] <==>
      x.estado == VisitDone && forall i :: 0 <= i < |treatments| ==> Key(treatments[i]) != NormalizeName(x.paciente)
  {
    ConcatOne(x, TreatmentCheck(ClinicNames(treatments), sim));
    ClinicNamesHas(treatments, NormalizeName(x.paciente));
  }

  // ---------------------------------------------------------------------------
  // Doctor check

  /** Each treatment paired with its key, in treatment order. */
  function Keyed(treatments: seq<Treatment>): (r: seq<(string, Treatment)>)
    ensures |r| == |treatments|
    ensures forall i :: 0 <= i < |r| ==> r[i] == (Key(treatments[i]), treatments[i])
  {
    seq(|treatments|, i requires 0 <= i < |treatments| => (Key(treatments[i]), treatments[i]))
  }

  /** The dict comprehension of the doctor check, keyed by normalised name. */
  function Mapping(treatments: seq<Treatment>): (m: map<string, Treatment>)
    ensures forall k :: k in m <==> exists i :: 0 <= i < |treatments| && Key(treatments[i]) == k
  {
    var pairs := Keyed(treatments);
    var m := MapOf(pairs);
    forall k | k in m
      ensures exists i :: 0 <= i < |treatments| && Key(treatments[i]) == k
    {
      var i :| 0 <= i < |pairs| && pairs[i].0 == k;
      assert Key(treatments[i]) == k;
    }
    forall i | 0 <= i < |treatments|
      ensures Key(treatments[i]) in m
    {
      assert pairs[i].0 == Key(treatments[i]);
    }
    m
  }

  /** `list(cliniwin_mapping.keys())`. */
  function MappingKeys(treatments: seq<Treatment>): (ks: seq<string>)
    ensures forall k :: k in ks <==> k in Mapping(treatments)
    ensures forall i, j :: 0 <= i < j < |ks| ==> ks[i] != ks[j]
  {
    KeysOf(Keyed(treatments))
  }

  /** The mapping keeps the last treatment of each key. */
  lemma {:induction false} MappingLastWins(treatments: seq<Treatment>, i: nat)
    requires i < |treatments|
    requires forall j :: i < j < |treatments| ==> Key(treatments[j]) != Key(treatments[i])
    ensures Key(treatments[i]) in Mapping(treatments)
    ensures Mapping(treatments)[Key(treatments[i])] == treatments[i]
  {
    var pairs := Keyed(treatments);
    MapOfLastWins(pairs, i);
  }

  /** The alert of `check_doctors` for one appointment, if any. */
  function DoctorAlerts(a: Appointment, mapping: map<string, Treatment>, keys: seq<string>, sim: Similarity): seq<Alert> {
    if a.estado != VisitDone then []
    else
      var matched := BestMatch(NormalizeName(a.paciente), keys, sim);
      // `if not matched_name`: no match, or a match on the empty name. The
      // last test only makes `mapping[...]` well defined: `CheckDoctors`
      // passes the mapping's own keys, `BestMatch` returns one of them, so
      // it never holds there, just as the lookup in the source never fails.
      if matched.None? || matched.value == "" || matched.value !in mapping then []
      else
        var recorded := mapping[matched.value].numDoctor;
        match DoctorNumber(a.especialista)
        case None => []
        case Some(booked) =>
          if booked != recorded && recorded != ExemptDoctor then [Alert(WrongDoctor(DoctorName(recorded)), a)] else []
  }


  function DoctorCheck(mapping: map<string, Treatment>, keys: seq<string>, sim: Similarity): Appointment -> seq<Alert> {
    a => DoctorAlerts(a, mapping, keys, sim)
  }

  lemma DoctorAlertsAbout(a: Appointment, mapping: map<string, Treatment>, keys: seq<string>, sim: Similarity, x: Alert)
    requires x in DoctorCheck(mapping, keys, sim)(a)
    ensures x.kind.WrongDoctor? && x.data == a && a.estado == VisitDone && DoctorNumber(a.especialista).Some?
  {
  }

  /** `check_doctors`. */
  function CheckDoctors(appts: seq<Appointment>, treatments: seq<Treatment>, sim: Similarity): (r: seq<Alert>)
    ensures |r| <= |appts|
    ensures forall j :: 0 <= j < |r| ==>
      && r[j].kind.WrongDoctor?
      && r[j].data in appts
      && r[j].data.estado == VisitDone
      && DoctorNumber(r[j].data.especialista).Some?
  {
    var mapping := Mapping(treatments);
    var keys := MappingKeys(treatments);
    var r := Concat(appts, DoctorCheck(mapping, keys, sim));
    ConcatSize(appts, DoctorCheck(mapping, keys, sim));
    forall j | 0 <= j < |r|
      ensures && r[j].kind.WrongDoctor?
              && r[j].data in appts
              && r[j].data.estado == VisitDone
              && DoctorNumber(r[j].data.especialista).Some?
    {
      ConcatFrom(appts, DoctorCheck(mapping, keys, sim), j);
      var i :| 0 <= i < |appts| && r[j] in DoctorCheck(mapping, keys, sim)(appts[i]);
      DoctorAlertsAbout(appts[i], mapping, keys, sim, r[j]);
    }
    r
  }

  lemma CheckDoctorsAppend(a: seq<Appointment>, b: seq<Appointment>, treatments: seq<Treatment>, sim: Similarity)
    ensures CheckDoctors(a + b, treatments, sim) == CheckDoctors(a, treatments, sim) + CheckDoctors(b, treatments, sim)
  {
    ConcatAppend(a, b, DoctorCheck(Mapping(treatments), MappingKeys(treatments), sim));
  }

  /** The cases in which the doctor check stays silent about an appointment. */
  lemma CheckDoctorsSilent(x: Appointment, treatments: seq<Treatment>, sim: Similarity)
    requires || x.estado != VisitDone
             || BestMatch(NormalizeName(x.paciente), MappingKeys(treatments), sim) in {None, Some("")}
             || DoctorNumber(x.especialista).None?
    ensures CheckDoctors([x], treatments, sim) == []
  {
    ConcatOne(x, DoctorCheck(Mapping(treatments), MappingKeys(treatments), sim));
  }

  /** A finished visit whose patient matches the key of treatment `i`, the
      last treatment with that key, and whose specialist has a number: it is
      reported exactly when that number differs from the treatment's doctor
      and the treatment's doctor is not the exempt one. */
  lemma {:induction false} CheckDoctorsMatched(x: Appointment, treatments: seq<Treatment>, sim: Similarity, i: nat, booked: string)
    requires i < |treatments|
    requires forall j :: i < j < |treatments| ==> Key(treatments[j]) != Key(treatments[i])
    requires x.estado == VisitDone
    requires BestMatch(NormalizeName(x.paciente), MappingKeys(treatments), sim) == Some(Key(treatments[i]))
    requires Key(treatments[i]) != ""
    requires DoctorNumber(x.especialista) == Some(booked)
    ensures var recorded := treatments[i].numDoctor;
      CheckDoctors([x], treatments, sim) ==
        if booked != recorded && recorded != ExemptDoctor then [Alert(WrongDoctor(DoctorName(recorded)), x)] else []
  {
    var mapping := Mapping(treatments);
    var keys := MappingKeys(treatments);
    MappingLastWins(treatments, i);
    ConcatOne(x, DoctorCheck(mapping, keys, sim));
  }



  // ---------------------------------------------------------------------------
  // All checks of one day

  /** The alerts of `alerts` whose kind is `InvalidState` (0),
      `MissingTreatment` (1) or `WrongDoctor` (2). */
  function OfKind(alerts: seq<Alert>, tag: nat): (r: seq<Alert>)
    ensures |r| <= |alerts|
  {
    if alerts == [] then []
    else (if Tag(alerts[0].kind) == tag then [alerts[0]] else []) + OfKind(alerts[1..], tag)
  }

  function Tag(k: AlertKind): nat {
    match k
    case InvalidState => 0
    case MissingTreatment(_) => 1
    case WrongDoctor(_) => 2
  }

  lemma {:induction false} OfKindAppend(a: seq<Alert>, b: seq<Alert>, tag: nat)
    ensures OfKind(a + b, tag) == OfKind(a, tag) + OfKind(b, tag)
  {
    if a == [] {
      assert a + b == b;
    } else {
      var c := a + b;
      assert c[0] == a[0];
      assert c[1..] == a[1..] + b;
      OfKindAppend(a[1..], b, tag);
      var h := if Tag(a[0].kind) == tag then [a[0]] else [];
      assert OfKind(c, tag) == h + OfKind(c[1..], tag);
      assert OfKind(a, tag) == h + OfKind(a[1..], tag);
      assert h + (OfKind(a[1..], tag) + OfKind(b, tag)) == (h + OfKind(a[1..], tag)) + OfKind(b, tag);
    }
  }

  lemma {:induction false} OfKindUniform(a: seq<Alert>, tag: nat, other: nat)
    requires forall j :: 0 <= j < |a| ==> Tag(a[j].kind) == tag
    ensures OfKind(a, tag) == a
    ensures other != tag ==> OfKind(a, other) == []
  {
    if a != [] {
      OfKindUniform(a[1..], tag, other);
    }
  }

  /** Three runs of alerts of kinds 0, 1 and 2 are recovered from their
      concatenation by kind. */
  lemma {:induction false} OfKindSplit(s: seq<Alert>, t: seq<Alert>, d: seq<Alert>)
    requires forall j :: 0 <= j < |s| ==> Tag(s[j].kind) == 0
    requires forall j :: 0 <= j < |t| ==> Tag(t[j].kind) == 1
    requires forall j :: 0 <= j < |d| ==> Tag(d[j].kind) == 2
    ensures OfKind(s + t + d, 0) == s
    ensures OfKind(s + t + d, 1) == t
    ensures OfKind(s + t + d, 2) == d
  {
    OfKindAppend(s + t, d, 0);
    OfKindAppend(s + t, d, 1);
    OfKindAppend(s + t, d, 2);
    OfKindAppend(s, t, 0);
    OfKindAppend(s, t, 1);
    OfKindAppend(s, t, 2);
    OfKindUniform(s, 0, 1);
    OfKindUniform(s, 0, 2);
    OfKindUniform(t, 1, 0);
    OfKindUniform(t, 1, 2);
    OfKindUniform(d, 2, 0);
    OfKindUniform(d, 2, 1);
  }

  /** The three runs of alerts of one day, one per check. */
  datatype Sections = Sections(state: seq<Alert>, treatment: seq<Alert>, doctor: seq<Alert>)

  function SectionsOf(appts: seq<Appointment>, treatments: seq<Treatment>, sim: Similarity): Sections {
    Sections(CheckState(appts), CheckTreatments(appts, treatments, sim), CheckDoctors(appts, treatments, sim))
  }

  /** `perform_checks`: the state, treatment and doctor alerts of one day,
      in that order. Each run is also what filtering the result by its kind
      gives back. */
  function PerformChecks(appts: seq<Appointment>, treatments: seq<Treatment>, sim: Similarity): (r: seq<Alert>)
    ensures |r| <= 3 * |appts|
    ensures forall j :: 0 <= j < |r| ==> r[j].data in appts
    ensures var sec := SectionsOf(appts, treatments, sim);
      && |r| == |sec.state| + |sec.treatment| + |sec.doctor|
      && r[..|sec.state|] == sec.state
      && r[|sec.state|..|sec.state| + |sec.treatment|] == sec.treatment
      && r[|sec.state| + |sec.treatment|..] == sec.doctor
    ensures var sec := SectionsOf(appts, treatments, sim);
      && OfKind(r, 0) == sec.state
      && OfKind(r, 1) == sec.treatment
      && OfKind(r, 2) == sec.doctor
  {
    var sec := SectionsOf(appts, treatments, sim);
    var r := sec.state + sec.treatment + sec.doctor;
    OfKindSplit(sec.state, sec.treatment, sec.doctor);
    assert r[..|sec.state|] == sec.state;
    assert r[|sec.state|..|sec.state| + |sec.treatment|] == sec.treatment;
    assert r[|sec.state| + |sec.treatment|..] == sec.doctor;
    r
  }

  // ---------------------------------------------------------------------------
  // Grouping by day

  /** `datetime.strptime(text, format).strftime('%Y-%m-%d')`, left abstract;
      `None` stands for the `ValueError` that `normalize_date` swallows. */
  type DateParser = string -> Option<string>

  /** The normalised date of a cell, when it parsed to a non-empty string
      (the grouping tests the date for truth). */
  function DayOf(parse: DateParser, text: string): Option<string> {
    match parse(text)
    case Some(d) => if d != "" then Some(d) else None
    case None => None
  }

  /** Appointments with a usable `Paciente`, as the first list comprehension
      keeps them. */
  function Present(rows: seq<AppointmentRow>): (r: seq<Appointment>)
    ensures |r| <= |rows|
    ensures forall j :: 0 <= j < |r| ==>
      && r[j].paciente != ""
      && exists i :: 0 <= i < |rows| && rows[i] == AppointmentRow(r[j].fecha, Some(r[j].paciente), r[j].especialista, r[j].estado)
    ensures forall i :: 0 <= i < |rows| && rows[i].paciente.Some? && rows[i].paciente.value != "" ==>
      Appointment(rows[i].fecha, rows[i].paciente.value, rows[i].especialista, rows[i].estado) in r
  {
    if rows == [] then []
    else
      var row := rows[0];
      var rest := Present(rows[1..]);
      assert forall j :: 0 <= j < |rest| ==>
        exists i :: 1 <= i < |rows| && rows[i] == AppointmentRow(rest[j].fecha, Some(rest[j].paciente), rest[j].especialista, rest[j].estado);
      match row.paciente
      case Some(p) =>
        if p != "" then [Appointment(row.fecha, p, row.especialista, row.estado)] + rest else rest
      case None => rest
  }

  /** The comprehension keeps input order and repeats: the appointments of a
      concatenation are those of the first part followed by those of the
      second. */
  lemma {:induction false} PresentAppend(a: seq<AppointmentRow>, b: seq<AppointmentRow>)
    ensures Present(a + b) == Present(a) + Present(b)
  {
    if a == [] {
      assert a + b == b;
    } else {
      assert (a + b)[0] == a[0];
      assert (a + b)[1..] == a[1..] + b;
      PresentAppend(a[1..], b);
    }
  }

  /** A single row yields its appointment exactly when its `Paciente` is
      present and not empty. */
  lemma PresentOne(row: AppointmentRow)
    ensures Present([row]) ==
      if row.paciente.Some? && row.paciente.value != ""
      then [Appointment(row.fecha, row.paciente.value, row.especialista, row.estado)]
      else []
  {
    assert [row][1..] == [];
  }

  /** The group of `day` built by appending, in input order, every element
      whose normalised date is `day`: `grouped[day]` of the `defaultdict`. */
  function OnDay<T(==)>(xs: seq<T>, dayOf: T -> Option<string>, day: string): (r: seq<T>)
    ensures |r| <= |xs|
    ensures forall j :: 0 <= j < |r| ==> r[j] in xs && dayOf(r[j]) == Some(day)
    ensures forall i :: 0 <= i < |xs| && dayOf(xs[i]) == Some(day) ==> xs[i] in r
  {
    if xs == [] then []
    else (if dayOf(xs[0]) == Some(day) then [xs[0]] else []) + OnDay(xs[1..], dayOf, day)
  }

  /** Grouping keeps input order: the group of a concatenation is the
      concatenation of the groups. */
  lemma {:induction false} OnDayAppend<T>(a: seq<T>, b: seq<T>, dayOf: T -> Option<string>, day: string)
    ensures OnDay(a + b, dayOf, day) == OnDay(a, dayOf, day) + OnDay(b, dayOf, day)
  {
    if a == [] {
      assert a + b == b;
    } else {
      assert (a + b)[0] == a[0];
      assert (a + b)[1..] == a[1..] + b;
      OnDayAppend(a[1..], b, dayOf, day);
    }
  }

  /** One element joins the group of its own date and no other. */
  lemma OnDayOne<T>(x: T, dayOf: T -> Option<string>, day: string)
    ensures OnDay([x], dayOf, day) == if dayOf(x) == Some(day) then [x] else []
  {
    assert [x][1..] == [];
  }

  /** The appointments grouped under `day`. */
  function AppointmentsOn(appts: seq<Appointment>, parse: DateParser, day: string): (r: seq<Appointment>)
    ensures forall j :: 0 <= j < |r| ==> r[j] in appts && DayOf(parse, r[j].fecha) == Some(day)
    ensures forall i :: 0 <= i < |appts| && DayOf(parse, appts[i].fecha) == Some(day) ==> appts[i] in r
  {
    OnDay(appts, (a: Appointment) => DayOf(parse, a.fecha), day)
  }

  /** The treatments grouped under `day`. */
  function TreatmentsOn(treatments: seq<Treatment>, parse: DateParser, day: string): (r: seq<Treatment>)
    ensures forall j :: 0 <= j < |r| ==> r[j] in treatments && DayOf(parse, r[j].fechaRealizado) == Some(day)
    ensures forall i :: 0 <= i < |treatments| && DayOf(parse, treatments[i].fechaRealizado) == Some(day) ==> treatments[i] in r
  {
    OnDay(treatments, (t: Treatment) => DayOf(parse, t.fechaRealizado), day)
  }

  /** Every day on which an appointment or a treatment took place. */
  function Days(appts: seq<Appointment>, treatments: seq<Treatment>, parseAppt: DateParser, parseTreat: DateParser): set<string> {
    (set i | 0 <= i < |appts| && DayOf(parseAppt, appts[i].fecha).Some? :: DayOf(parseAppt, appts[i].fecha).value)
    + (set i | 0 <= i < |treatments| && DayOf(parseTreat, treatments[i].fechaRealizado).Some? ::
         DayOf(parseTreat, treatments[i].fechaRealizado).value)
  }

  /** `order` lists each element of `days` once: the iteration order of the
      Python set of dates, which the model does not fix. */
  predicate Enumerates(order: seq<string>, days: set<string>) {
    && (forall i :: 0 <= i < |order| ==> order[i] in days)
    && (forall d :: d in days ==> d in order)
    && (forall i, j :: 0 <= i < j < |order| ==> order[i] != order[j])
  }

  /** The loop over the dates: the alerts of `run` on each date, in order. */
  function RunDays(order: seq<string>, run: string -> seq<Alert>): seq<Alert> {
    if order == [] then [] else run(order[0]) + RunDays(order[1..], run)
  }

  /** Running the loop over two runs of dates is running it over each in turn. */
  lemma {:induction false} RunDaysAppend(o1: seq<string>, o2: seq<string>, run: string -> seq<Alert>)
    ensures RunDays(o1 + o2, run) == RunDays(o1, run) + RunDays(o2, run)
  {
    if o1 == [] {
      assert o1 + o2 == o2;
    } else {
      assert (o1 + o2)[0] == o1[0];
      assert (o1 + o2)[1..] == o1[1..] + o2;
      RunDaysAppend(o1[1..], o2, run);
    }
  }

  /** The alerts of the `k`-th date form one block, right after the alerts of
      the dates before it. */
  lemma {:induction false} RunDaysBlock(order: seq<string>, run: string -> seq<Alert>, k: nat)
    requires k < |order|
    ensures var p := |RunDays(order[..k], run)|;
      && p + |run(order[k])| <= |RunDays(order, run)|
      && RunDays(order, run)[p..p + |run(order[k])|] == run(order[k])
  {
    var before, here, after := RunDays(order[..k], run), run(order[k]), RunDays(order[k + 1..], run);
    var tail := [order[k]] + order[k + 1..];
    assert order == order[..k] + tail;
    RunDaysAppend(order[..k], tail, run);
    assert tail[0] == order[k] && tail[1..] == order[k + 1..];
    assert RunDays(tail, run) == here + after;
    var r := before + (here + after);
    assert r[|before|..|before| + |here|] == here;
  }

  /** Every alert of every visited date is an alert of the loop. */
  lemma {:induction false} RunDaysHas(order: seq<string>, run: string -> seq<Alert>, k: nat, a: Alert)
    requires k < |order| && a in run(order[k])
    ensures a in RunDays(order, run)
  {
    RunDaysBlock(order, run, k);
    var p := |RunDays(order[..k], run)|;
    var q :| 0 <= q < |run(order[k])| && run(order[k])[q] == a;
    assert RunDays(order, run)[p + q] == run(order[k])[q];
  }

  /** Every alert of the loop is an alert of one of the dates. */
  lemma {:induction false} RunDaysFrom(order: seq<string>, run: string -> seq<Alert>, j: nat)
    requires j < |RunDays(order, run)|
    ensures exists k :: 0 <= k < |order| && RunDays(order, run)[j] in run(order[k])
  {
    var here := run(order[0]);
    if j < |here| {
      assert RunDays(order, run)[j] == here[j];
    } else {
      RunDaysFrom(order[1..], run, j - |here|);
      var k :| 0 <= k < |order| - 1 && RunDays(order[1..], run)[j - |here|] in run(order[1..][k]);
      assert order[1..][k] == order[k + 1];
    }
  }

  /** `perform_checks` of the two groups of `day`. */
  function DayAlerts(day: string, appts: seq<Appointment>, treatments: seq<Treatment>,
                     parseAppt: DateParser, parseTreat: DateParser, sim: Similarity): seq<Alert> {
    PerformChecks(AppointmentsOn(appts, parseAppt, day), TreatmentsOn(treatments, parseTreat, day), sim)
  }

  function DayRun(appts: seq<Appointment>, treatments: seq<Treatment>,
                  parseAppt: DateParser, parseTreat: DateParser, sim: Similarity): string -> seq<Alert> {
    day => DayAlerts(day, appts, treatments, parseAppt, parseTreat, sim)
  }

  /** The loop of `perform_appointment_checks` over the dates in `order`. */
  function ChecksByDay(order: seq<string>, appts: seq<Appointment>, treatments: seq<Treatment>,
                       parseAppt: DateParser, parseTreat: DateParser, sim: Similarity): seq<Alert> {
    RunDays(order, DayRun(appts, treatments, parseAppt, parseTreat, sim))
  }

  /** An alert of one date is about an appointment grouped under it. */
  lemma {:induction false} DayAlertsSound(day: string, appts: seq<Appointment>, treatments: seq<Treatment>,
                                          parseAppt: DateParser, parseTreat: DateParser, sim: Similarity, a: Alert)
    requires a in DayAlerts(day, appts, treatments, parseAppt, parseTreat, sim)
    ensures a.data in appts && DayOf(parseAppt, a.data.fecha) == Some(day)
  {
    var group := AppointmentsOn(appts, parseAppt, day);
    var here := PerformChecks(group, TreatmentsOn(treatments, parseTreat, day), sim);
    var q :| 0 <= q < |here| && here[q] == a;
    assert a.data in group;
  }

  /** Every alert of the loop is about one of the grouped appointments, and
      its date parsed. */
  lemma {:induction false} ChecksByDaySound(order: seq<string>, appts: seq<Appointment>, treatments: seq<Treatment>,
                                            parseAppt: DateParser, parseTreat: DateParser, sim: Similarity)
    ensures var r := ChecksByDay(order, appts, treatments, parseAppt, parseTreat, sim);
      forall j :: 0 <= j < |r| ==> r[j].data in appts && DayOf(parseAppt, r[j].data.fecha).Some?
  {
    var run := DayRun(appts, treatments, parseAppt, parseTreat, sim);
    var r := RunDays(order, run);
    forall j | 0 <= j < |r|
      ensures r[j].data in appts && DayOf(parseAppt, r[j].data.fecha).Some?
    {
      RunDaysFrom(order, run, j);
      var k :| 0 <= k < |order| && r[j] in run(order[k]);
      assert run(order[k]) == DayAlerts(order[k], appts, treatments, parseAppt, parseTreat, sim);
      DayAlertsSound(order[k], appts, treatments, parseAppt, parseTreat, sim, r[j]);
    }
  }

  /** `perform_appointment_checks` after parsing: drop appointments without a
      patient, group both sides by normalised date, and run the checks of each
      day in the iteration order `order` of the set of dates. */
  function PerformAppointmentChecks(rows: seq<AppointmentRow>, treatments: seq<Treatment>,
                                    parseAppt: DateParser, parseTreat: DateParser,
                                    order: seq<string>, sim: Similarity): (r: seq<Alert>)
    requires Enumerates(order, Days(Present(rows), treatments, parseAppt, parseTreat))
    ensures forall j :: 0 <= j < |r| ==>
      && r[j].data.paciente != ""
      && DayOf(parseAppt, r[j].data.fecha).Some?
      && exists i :: 0 <= i < |rows| && rows[i] ==
           AppointmentRow(r[j].data.fecha, Some(r[j].data.paciente), r[j].data.especialista, r[j].data.estado)
  {
    ChecksByDaySound(order, Present(rows), treatments, parseAppt, parseTreat, sim);
    ChecksByDay(order, Present(rows), treatments, parseAppt, parseTreat, sim)
  }

  /** Every date of the set gets its `perform_checks` run: the alerts of the
      `k`-th date are those of its two groups, in one block right after the
      alerts of the dates before it. */
  lemma {:induction false} PerformAppointmentChecksDay(rows: seq<AppointmentRow>, treatments: seq<Treatment>,
                                                     parseAppt: DateParser, parseTreat: DateParser,
                                                     order: seq<string>, sim: Similarity, k: nat)
    requires Enumerates(order, Days(Present(rows), treatments, parseAppt, parseTreat))
    requires k < |order|
    ensures var r := PerformAppointmentChecks(rows, treatments, parseAppt, parseTreat, order, sim);
      var p := |ChecksByDay(order[..k], Present(rows), treatments, parseAppt, parseTreat, sim)|;
      var here := PerformChecks(AppointmentsOn(Present(rows), parseAppt, order[k]), TreatmentsOn(treatments, parseTreat, order[k]), sim);
      p + |here| <= |r| && r[p..p + |here|] == here
  {
    var run := DayRun(Present(rows), treatments, parseAppt, parseTreat, sim);
    RunDaysBlock(order, run, k);
    assert run(order[k]) == DayAlerts(order[k], Present(rows), treatments, parseAppt, parseTreat, sim);
  }

  /** An appointment in a disallowed state always yields an invalid-state
      alert, provided it has a patient and its date parses. */
  lemma {:induction false} CheckStateHas(appts: seq<Appointment>, i: nat)
    requires i < |appts| && appts[i].estado !in AllowedStatuses
    ensures Alert(InvalidState, appts[i]) in CheckState(appts)
  {
    assert appts == appts[..i] + ([appts[i]] + appts[i + 1..]);
    CheckStateAppend(appts[..i], [appts[i]] + appts[i + 1..]);
    CheckStateAppend([appts[i]], appts[i + 1..]);
    CheckStateOne(appts[i]);
    var r := CheckState(appts[..i]) + ([Alert(InvalidState, appts[i])] + CheckState(appts[i + 1..]));
    assert r[|CheckState(appts[..i])|] == Alert(InvalidState, appts[i]);
  }

  /** The state alerts of a day are among its alerts. */
  lemma {:induction false} PerformChecksHasState(appts: seq<Appointment>, treatments: seq<Treatment>, sim: Similarity, a: Alert)
    requires a in CheckState(appts)
    ensures a in PerformChecks(appts, treatments, sim)
  {
    var state := CheckState(appts);
    var r := PerformChecks(appts, treatments, sim);
    var q :| 0 <= q < |state| && state[q] == a;
    assert r[..|state|] == state;
    assert r[q] == a;
  }

  /** A grouped appointment in a disallowed state is reported on its date. */
  lemma {:induction false} DayAlertsFlagState(day: string, appts: seq<Appointment>, treatments: seq<Treatment>,
                                              parseAppt: DateParser, parseTreat: DateParser, sim: Similarity, x: Appointment)
    requires x in appts && DayOf(parseAppt, x.fecha) == Some(day) && x.estado !in AllowedStatuses
    ensures Alert(InvalidState, x) in DayAlerts(day, appts, treatments, parseAppt, parseTreat, sim)
  {
    var group := AppointmentsOn(appts, parseAppt, day);
    var g :| 0 <= g < |group| && group[g] == x;
    CheckStateHas(group, g);
    PerformChecksHasState(group, TreatmentsOn(treatments, parseTreat, day), sim, Alert(InvalidState, x));
  }

  /** The date of a kept appointment whose date parses is one of the dates
      the loop visits. */
  lemma {:induction false} DayVisited(rows: seq<AppointmentRow>, treatments: seq<Treatment>,
                                      parseAppt: DateParser, parseTreat: DateParser, order: seq<string>, x: Appointment)
    requires Enumerates(order, Days(Present(rows), treatments, parseAppt, parseTreat))
    requires x in Present(rows) && DayOf(parseAppt, x.fecha).Some?
    ensures DayOf(parseAppt, x.fecha).value in order
  {
    var present := Present(rows);
    var a :| 0 <= a < |present| && present[a] == x;
    assert DayOf(parseAppt, present[a].fecha).value in Days(present, treatments, parseAppt, parseTreat);
  }

  /** End to end: a row with a patient, a date that parses and a state
      outside the allowed three is reported as an invalid state. */
  lemma {:induction false} PerformAppointmentChecksFlagsState(rows: seq<AppointmentRow>, treatments: seq<Treatment>,
                                                            parseAppt: DateParser, parseTreat: DateParser,
                                                            order: seq<string>, sim: Similarity, i: nat)
    requires Enumerates(order, Days(Present(rows), treatments, parseAppt, parseTreat))
    requires i < |rows| && rows[i].paciente.Some? && rows[i].paciente.value != ""
    requires DayOf(parseAppt, rows[i].fecha).Some? && rows[i].estado !in AllowedStatuses
    ensures Alert(InvalidState, Appointment(rows[i].fecha, rows[i].paciente.value, rows[i].especialista, rows[i].estado))
            in PerformAppointmentChecks(rows, treatments, parseAppt, parseTreat, order, sim)
  {
    var x := Appointment(rows[i].fecha, rows[i].paciente.value, rows[i].especialista, rows[i].estado);
    var present := Present(rows);
    var day := DayOf(parseAppt, x.fecha).value;
    DayVisited(rows, treatments, parseAppt, parseTreat, order, x);
    var k :| 0 <= k < |order| && order[k] == day;
    DayAlertsFlagState(day, present, treatments, parseAppt, parseTreat, sim, x);
    var run := DayRun(present, treatments, parseAppt, parseTreat, sim);
    assert run(order[k]) == DayAlerts(day, present, treatments, parseAppt, parseTreat, sim);
    RunDaysHas(order, run, k, Alert(InvalidState, x));
  }
}
