/** Selection of the appointments whose patients still have to be reminded
    (`extract_appointments_to_remind`, appointment_reminders.py:45-68).

  An appointment is a row of the `citas` table read back from the database
  (appointment_reminders.py:19-25), a dictionary from column name to cell.
  Only text cells are modelled; a missing column reads as the empty string,
  as `dict.get(key, '')` does.
 */
module Reminders {
  import opened Text

  type Appointment = map<string, string>

  datatype Reminder = Reminder(appointmentName: string, telephone: string)

  const ConfirmationColumn := "confirmacion de la visita"
  const PatientColumn := "paciente"
  const TelephoneColumn := "telefono"

  /** `appointment.get(column, '')`. */
  function Field(a: Appointment, column: string): (r: string)
    ensures column !in a ==> r == []
  {
    if column in a then a[column] else []
  }

  /** The visit is neither confirmed nor cancelled (appointment_reminders.py:60). */
  predicate Unconfirmed(a: Appointment) {
    var state := Strip(Field(a, ConfirmationColumn));
    state != "Confirmada" && state != "Cancelada"
  }

  /** The normalised patient name (appointment_reminders.py:61). */
  function PatientName(a: Appointment): string {
    Lower(Strip(Field(a, PatientColumn)))
  }

  /** The normalised telephone (appointment_reminders.py:62). */
  function Telephone(a: Appointment): string {
    RemoveChar(Lower(Strip(Field(a, TelephoneColumn))), ' ')
  }

  /** The appointment produces a reminder. */
  predicate Wanted(a: Appointment) {
    Unconfirmed(a) && PatientName(a) != []
  }

  function ReminderOf(a: Appointment): Reminder {
    Reminder(Title(PatientName(a)), Telephone(a))
  }

  /** `extract_appointments_to_remind`: one reminder per wanted appointment,
      in input order. */
  function Extract(appointments: seq<Appointment>): (r: seq<Reminder>)
    ensures |r| <= |appointments|
  {
    if appointments == [] then []
    else
      var last := appointments[|appointments| - 1];
      Extract(appointments[..|appointments| - 1]) + (if Wanted(last) then [ReminderOf(last)] else [])
  }

  /** The positions of the wanted appointments, in increasing order: the
      reference the output is compared against. */
  function Origins(appointments: seq<Appointment>): (r: seq<nat>)
    ensures forall k :: 0 <= k < |r| ==> r[k] < |appointments|
  {
    if appointments == [] then []
    else
      var n := |appointments| - 1;
      Origins(appointments[..n]) + (if Wanted(appointments[n]) then [n] else [])
  }

  /** One reminder per recorded position. */
  lemma {:induction false} ExtractLength(appointments: seq<Appointment>)
    ensures |Extract(appointments)| == |Origins(appointments)|
  {
    if appointments != [] {
      ExtractLength(appointments[..|appointments| - 1]);
    }
  }

  /** The k-th reminder is made from the k-th recorded position, which holds
      a wanted appointment. */
  lemma {:induction false} ExtractAt(appointments: seq<Appointment>, k: nat)
    requires k < |Extract(appointments)|
    ensures k < |Origins(appointments)| && Wanted(appointments[Origins(appointments)[k]])
    ensures Extract(appointments)[k] == ReminderOf(appointments[Origins(appointments)[k]])
  {
    ExtractLength(appointments);
    var n := |appointments| - 1;
    var init := appointments[..n];
    ExtractLength(init);
    if k < |Extract(init)| {
      ExtractAt(init, k);
      assert init[Origins(init)[k]] == appointments[Origins(init)[k]];
    }
  }

  /** Recorded positions increase, so the output keeps input order. */
  lemma {:induction false} OriginsIncreasing(appointments: seq<Appointment>)
    ensures forall k, l :: 0 <= k < l < |Origins(appointments)| ==> Origins(appointments)[k] < Origins(appointments)[l]
  {
    if appointments != [] {
      var n := |appointments| - 1;
      var init := Origins(appointments[..n]);
      OriginsIncreasing(appointments[..n]);
      assert forall k :: 0 <= k < |init| ==> init[k] < n;
      var o := Origins(appointments);
      assert o == init + (if Wanted(appointments[n]) then [n] else []);
      forall k, l | 0 <= k < l < |o|
        ensures o[k] < o[l]
      {
        if l < |init| {
          assert o[k] == init[k] && o[l] == init[l];
          assert init[k] < init[l];
        } else {
          assert o[k] == init[k] && o[l] == n;
        }
      }
    }
  }

  /** Every wanted appointment's position is recorded, and only those. */
  lemma {:induction false} OriginsComplete(appointments: seq<Appointment>, i: nat)
    requires i < |appointments|
    ensures i in Origins(appointments) <==> Wanted(appointments[i])
  {
    var n := |appointments| - 1;
    var init := appointments[..n];
    var tail := if Wanted(appointments[n]) then [n] else [];
    assert Origins(appointments) == Origins(init) + tail;
    if i < n {
      OriginsComplete(init, i);
      assert init[i] == appointments[i];
      assert i !in tail;
    } else {
      assert i !in Origins(init);
    }
  }

  /** A confirmed or cancelled appointment, and one without a patient name,
      never produces a reminder; any other one does. */
  lemma {:induction false} ExtractMembership(appointments: seq<Appointment>, i: nat)
    requires i < |appointments|
    ensures ReminderOf(appointments[i]) in Extract(appointments) <== Wanted(appointments[i])
    ensures !Unconfirmed(appointments[i]) ==> i !in Origins(appointments)
    ensures PatientName(appointments[i]) == [] ==> i !in Origins(appointments)
  {
    OriginsComplete(appointments, i);
    var o := Origins(appointments);
    if Wanted(appointments[i]) {
      var k :| 0 <= k < |o| && o[k] == i;
      ExtractLength(appointments);
      ExtractAt(appointments, k);
    }
  }

  /** Every reminder comes from a wanted appointment of the input. */
  lemma {:induction false} ExtractSound(appointments: seq<Appointment>, x: Reminder)
    requires x in Extract(appointments)
    ensures exists i :: 0 <= i < |appointments| && Wanted(appointments[i]) && x == ReminderOf(appointments[i])
  {
    ExtractLength(appointments);
    var r, o := Extract(appointments), Origins(appointments);
    var k :| 0 <= k < |r| && r[k] == x;
    ExtractAt(appointments, k);
  }

  /** The output telephone holds no space, is lower-case and has no whitespace
      at either end. */
  lemma {:induction false} TelephoneShape(a: Appointment)
    ensures var t := Telephone(a);
      && (forall i :: 0 <= i < |t| ==> t[i] != ' ')
      && IsLower(t)
      && (t == [] || (!IsSpace(t[0]) && !IsSpace(t[|t| - 1])))
  {
    var s := Lower(Strip(Field(a, TelephoneColumn)));
    LowerShape(Strip(Field(a, TelephoneColumn)));
    RemoveCharLower(s, ' ');
    LowerStripEnds(Field(a, TelephoneColumn));
    if s != [] {
      RemoveCharFirst(s, ' ');
      RemoveCharLast(s, ' ');
    } else {
      assert RemoveChar(s, ' ') == [];
    }
  }

  /** The displayed name is the normalised patient name with title casing
      restored: lower-casing it gives the normalised name back, and it is
      never empty. */
  lemma {:induction false} NameRoundTrip(a: Appointment)
    requires Wanted(a)
    ensures var name := ReminderOf(a).appointmentName;
      name != [] && Lower(name) == PatientName(a)
  {
    var p := PatientName(a);
    LowerShape(Strip(Field(a, PatientColumn)));
    assert forall i :: 0 <= i < |p| ==> Lower(Title(p))[i] == p[i];
  }
}
