/**
 * The session-backed simulator of simulacion.php: patients with their
 * medications, the list of reminders and the list of confirmations, and the
 * four actions on them (the cron tick, a manual send, a confirmation and the
 * statistics). `date()` is passed in as a `Clock`.
 */
module Simulation {
  import opened Wrappers

  datatype Medication = Medication(nombre: string, dosis: string, hora: string, instrucciones: string)

  datatype Patient = Patient(id: int, nombre: string, telefono: string, medicamentos: seq<Medication>)

  /** The reminder states the simulator uses: 'enviado' and 'confirmado'. */
  datatype Status = Sent | Confirmed

  /**
   * A reminder; its `timestamp` 'Y-m-d H:i:s' is kept as its date `sentOn`
   * and its time `sentAt`, since the tick only ever compares the date part.
   */
  datatype Reminder = Reminder(
    id: int, idPaciente: int, paciente: string, telefono: string,
    medicamento: string, dosis: string, hora: string, instrucciones: string,
    sentOn: string, sentAt: string, estado: Status, confirmado: bool,
    horaConfirmacion: Option<string>)

  datatype Confirmation = Confirmation(
    idRecordatorio: int, paciente: string, medicamento: string,
    horaRecordatorio: string, horaConfirmacion: string, fecha: string, hora: string)

  /** `date('Y-m-d')`, `date('H:i')` and `date('H:i:s')` at the time of the request. */
  datatype Clock = Clock(date: string, hm: string, hms: string)

  datatype SimError = PatientNotFound | NoMedication | ReminderNotFoundOrConfirmed

  datatype Stats = Stats(pacientes: nat, recordatorios: nat, confirmados: nat, pendientes: int)

  /** The data the session starts with. */
  const SeedPatients: seq<Patient> := [
    Patient(1, "Ana García", "+5215512345678", [
      Medication("Paracetamol", "500mg", "10:00", "Tomar después del desayuno"),
      Medication("Loratadina", "10mg", "20:00", "Antes de dormir")]),
    Patient(2, "Carlos López", "+5215598765432", [
      Medication("Metformina", "850mg", "08:00", "Con el desayuno")])
  ]

  /** The reminder both the tick and the manual send append. */
  function NewReminder(id: int, p: Patient, m: Medication, clock: Clock): Reminder
  {
    Reminder(id, p.id, p.nombre, p.telefono, m.nombre, m.dosis, m.hora, m.instrucciones,
             clock.date, clock.hms, Sent, false, None)
  }

  function ConfirmedReminder(r: Reminder, clock: Clock): Reminder
  {
    r.(confirmado := true, horaConfirmacion := Some(clock.hms), estado := Confirmed)
  }

  function ConfirmationOf(r: Reminder, clock: Clock): Confirmation
  {
    Confirmation(r.id, r.paciente, r.medicamento, r.hora, clock.hms, clock.date, clock.hms)
  }

  /** A reminder for this patient and medication name dated `date`. */
  predicate SameDay(r: Reminder, pid: int, name: string, date: string)
  {
    r.idPaciente == pid && r.medicamento == name && r.sentOn == date
  }

  predicate SentToday(rs: seq<Reminder>, pid: int, name: string, date: string)
  {
    exists k :: 0 <= k < |rs| && SameDay(rs[k], pid, name, date)
  }

  /** Medication `mj` of patient `pi` is due at the clock's minute. */
  predicate Due(ps: seq<Patient>, pi: int, mj: int, clock: Clock)
  {
    0 <= pi < |ps| && 0 <= mj < |ps[pi].medicamentos| && ps[pi].medicamentos[mj].hora == clock.hm
  }

  /** Every due medication of the patients before `i` (and of patient `i` before `j`) has a reminder dated today. */
  predicate DueSentBefore(ps: seq<Patient>, rs: seq<Reminder>, clock: Clock, i: int, j: int)
  {
    forall pi, mj | 0 <= pi < |ps| && 0 <= mj < |ps[pi].medicamentos| ::
      Due(ps, pi, mj, clock) && (pi < i || (pi == i && mj < j)) ==>
      SentToday(rs, ps[pi].id, ps[pi].medicamentos[mj].nombre, clock.date)
  }

  predicate AllDueSent(ps: seq<Patient>, rs: seq<Reminder>, clock: Clock)
  {
    DueSentBefore(ps, rs, clock, |ps|, 0)
  }

  /** `r` is the reminder a tick creates for a due medication. */
  predicate FromDueSlot(ps: seq<Patient>, r: Reminder, clock: Clock)
  {
    exists pi, mj | 0 <= pi < |ps| && 0 <= mj < |ps[pi].medicamentos| ::
      Due(ps, pi, mj, clock) && r == NewReminder(r.id, ps[pi], ps[pi].medicamentos[mj], clock)
  }

  /** Every reminder of `rs` is one a tick creates for a due medication. */
  predicate FromDueSlots(ps: seq<Patient>, rs: seq<Reminder>, clock: Clock)
  {
    forall k :: 0 <= k < |rs| ==> FromDueSlot(ps, rs[k], clock)
  }

  lemma FromDueSlotsAppend(ps: seq<Patient>, a: seq<Reminder>, b: seq<Reminder>, clock: Clock)
    requires FromDueSlots(ps, a, clock) && FromDueSlots(ps, b, clock)
    ensures FromDueSlots(ps, a + b, clock)
  {
    forall k | 0 <= k < |a + b| ensures FromDueSlot(ps, (a + b)[k], clock) {
      if k < |a| {
        assert (a + b)[k] == a[k];
      } else {
        assert (a + b)[k] == b[k - |a|];
      }
    }
  }

  lemma AppendAssoc(a: seq<Reminder>, b: seq<Reminder>, c: seq<Reminder>)
    ensures a + (b + c) == (a + b) + c
  {
  }

  /** Reminders `from` onwards had no reminder for the same patient and medication dated today before them. */
  predicate FreshFrom(rs: seq<Reminder>, from: int, date: string)
  {
    forall k :: 0 <= from <= k < |rs| ==> !SentToday(rs[..k], rs[k].idPaciente, rs[k].medicamento, date)
  }

  predicate IdsSequential(rs: seq<Reminder>)
  {
    forall k :: 0 <= k < |rs| ==> rs[k].id == k + 1
  }

  function CountConfirmed(rs: seq<Reminder>): (n: nat)
    ensures n <= |rs|
  {
    if rs == [] then 0
    else CountConfirmed(rs[..|rs| - 1]) + (if rs[|rs| - 1].confirmado then 1 else 0)
  }

  /** The index of the first reminder with this id that is not yet confirmed. */
  function FirstOpen(rs: seq<Reminder>, id: int): (r: Option<nat>)
    ensures r.Some? ==> r.value < |rs| && rs[r.value].id == id && !rs[r.value].confirmado &&
                        forall q :: 0 <= q < r.value ==> !(rs[q].id == id && !rs[q].confirmado)
    ensures r.None? ==> forall q :: 0 <= q < |rs| ==> !(rs[q].id == id && !rs[q].confirmado)
  {
    if rs == [] then None
    else if rs[0].id == id && !rs[0].confirmado then Some(0)
    else match FirstOpen(rs[1..], id)
      case None => None
      case Some(k) => Some(k + 1)
  }

  /** `$_SESSION['base_datos']['pacientes'][$id_paciente] ?? null`: the patient stored under this id. */
  function FindPatient(ps: seq<Patient>, id: int): (r: Option<nat>)
    ensures r.Some? ==> r.value < |ps| && ps[r.value].id == id && forall q :: 0 <= q < r.value ==> ps[q].id != id
    ensures r.None? ==> forall q :: 0 <= q < |ps| ==> ps[q].id != id
  {
    if ps == [] then None
    else if ps[0].id == id then Some(0)
    else match FindPatient(ps[1..], id)
      case None => None
      case Some(k) => Some(k + 1)
  }

  // ---------------------------------------------------------------------------
  // Lemmas
  // ---------------------------------------------------------------------------

  lemma SentTodayAppend(rs: seq<Reminder>, x: Reminder, pid: int, name: string, date: string)
    ensures SentToday(rs + [x], pid, name, date) <==> SentToday(rs, pid, name, date) || SameDay(x, pid, name, date)
  {
    if SentToday(rs + [x], pid, name, date) {
      var k :| 0 <= k < |rs + [x]| && SameDay((rs + [x])[k], pid, name, date);
      if k < |rs| {
        assert SameDay(rs[k], pid, name, date);
      }
    }
    if SentToday(rs, pid, name, date) {
      var k :| 0 <= k < |rs| && SameDay(rs[k], pid, name, date);
      assert (rs + [x])[k] == rs[k];
    }
    if SameDay(x, pid, name, date) {
      assert (rs + [x])[|rs|] == x;
    }
  }

  /** One medication further: the due ones before it stay covered, and it is covered itself once it has a reminder. */
  lemma DueSentStep(ps: seq<Patient>, before: seq<Reminder>, after: seq<Reminder>, clock: Clock, i: int, j: int)
    requires DueSentBefore(ps, before, clock, i, j)
    requires forall pid, name :: SentToday(before, pid, name, clock.date) ==> SentToday(after, pid, name, clock.date)
    requires Due(ps, i, j, clock) ==> SentToday(after, ps[i].id, ps[i].medicamentos[j].nombre, clock.date)
    ensures DueSentBefore(ps, after, clock, i, j + 1)
  {
  }

  /** Appending an unconfirmed reminder leaves the count of confirmed ones unchanged. */
  lemma CountAppendUnconfirmed(rs: seq<Reminder>, x: Reminder)
    requires !x.confirmado
    ensures CountConfirmed(rs + [x]) == CountConfirmed(rs)
  {
    assert (rs + [x])[..|rs|] == rs;
  }

  /** Confirming one unconfirmed reminder raises the count of confirmed ones by exactly one. */
  lemma {:induction false} CountConfirmOne(rs: seq<Reminder>, k: nat, clock: Clock)
    requires k < |rs| && !rs[k].confirmado
    ensures CountConfirmed(rs[k := ConfirmedReminder(rs[k], clock)]) == CountConfirmed(rs) + 1
    decreases |rs|
  {
    var t := rs[k := ConfirmedReminder(rs[k], clock)];
    var n := |rs| - 1;
    assert t[..n] == if k < n then rs[..n][k := ConfirmedReminder(rs[k], clock)] else rs[..n];
    if k < n {
      CountConfirmOne(rs[..n], k, clock);
    }
  }

  /**
   * With sequential ids, confirming the first open reminder with an id leaves
   * none open with it: a second confirmation of the same id fails.
   */
  lemma ConfirmOnce(rs: seq<Reminder>, id: int, clock: Clock)
    requires IdsSequential(rs) && FirstOpen(rs, id).Some?
    ensures FirstOpen(rs[FirstOpen(rs, id).value := ConfirmedReminder(rs[FirstOpen(rs, id).value], clock)], id).None?
  {
    var k := FirstOpen(rs, id).value;
    var t := rs[k := ConfirmedReminder(rs[k], clock)];
    forall q | 0 <= q < |t| ensures !(t[q].id == id && !t[q].confirmado) {
      if q != k {
        assert rs[q].id == q + 1 && rs[k].id == k + 1;
      }
    }
  }

  /** The k-th reminder has id k, so ids are unique. */
  lemma IdsUnique(rs: seq<Reminder>)
    requires IdsSequential(rs)
    ensures forall a, b :: 0 <= a < b < |rs| ==> rs[a].id != rs[b].id
  {
  }

  // ---------------------------------------------------------------------------
  // The session database
  // ---------------------------------------------------------------------------

  class SessionDb {
    var pacientes: seq<Patient>
    var recordatorios: seq<Reminder>
    var confirmaciones: seq<Confirmation>

    /**
     * The k-th reminder has id k (the list only grows); a reminder is
     * confirmed exactly when its estado says so; and there is one
     * confirmation record per confirmed reminder.
     */
    predicate Valid()
      reads this
    {
      IdsSequential(recordatorios) &&
      (forall k :: 0 <= k < |recordatorios| ==>
         (recordatorios[k].confirmado <==> recordatorios[k].estado == Confirmed)) &&
      CountConfirmed(recordatorios) == |confirmaciones|
    }

    /** A fresh session: the two seed patients, no reminders, no confirmations. */
    constructor ()
      ensures pacientes == SeedPatients && recordatorios == [] && confirmaciones == []
      ensures Valid()
    {
      pacientes := SeedPatients;
      recordatorios := [];
      confirmaciones := [];
    }

    /** The inner scan of the tick: is there a reminder for this patient and medication dated `date`? */
    method AlreadySent(pid: int, name: string, date: string) returns (found: bool)
      ensures found == SentToday(recordatorios, pid, name, date)
    {
      var k := 0;
      while k < |recordatorios|
        invariant 0 <= k <= |recordatorios|
        invariant forall q :: 0 <= q < k ==> !SameDay(recordatorios[q], pid, name, date)
      {
        if SameDay(recordatorios[k], pid, name, date) {
          return true;
        }
        k := k + 1;
      }
      return false;
    }

    /**
     * `ejecutarCronjob`: for every medication due at the current minute that
     * has no reminder dated today for the same patient and medication name,
     * append one. Returns the appended reminders.
     */
    method RunCron(clock: Clock) returns (enviados: seq<Reminder>)
      requires Valid()
      modifies this
      ensures Valid()
      ensures pacientes == old(pacientes) && confirmaciones == old(confirmaciones)
      ensures recordatorios == old(recordatorios) + enviados
      ensures FromDueSlots(pacientes, enviados, clock)
      ensures FreshFrom(recordatorios, |old(recordatorios)|, clock.date)
      ensures AllDueSent(pacientes, recordatorios, clock)
      ensures AllDueSent(pacientes, old(recordatorios), clock) ==> enviados == []
    {
      enviados := [];
      var i := 0;
      while i < |pacientes|
        invariant 0 <= i <= |pacientes|
        invariant Valid() && pacientes == old(pacientes) && confirmaciones == old(confirmaciones)
        invariant recordatorios == old(recordatorios) + enviados
        invariant FromDueSlots(pacientes, enviados, clock)
        invariant FreshFrom(recordatorios, |old(recordatorios)|, clock.date)
        invariant DueSentBefore(pacientes, recordatorios, clock, i, 0)
      {
        var enviadosPaciente := CronPatient(i, clock, |old(recordatorios)|);
        FromDueSlotsAppend(pacientes, enviados, enviadosPaciente, clock);
        AppendAssoc(old(recordatorios), enviados, enviadosPaciente);
        enviados := enviados + enviadosPaciente;
        i := i + 1;
      }
      if enviados != [] {
        // The first appended reminder is for a due medication that had none dated today.
        var r := enviados[0];
        assert FromDueSlot(pacientes, r, clock);
        var pi, mj :| 0 <= pi < |pacientes| && 0 <= mj < |pacientes[pi].medicamentos| &&
                     Due(pacientes, pi, mj, clock) &&
                     r == NewReminder(r.id, pacientes[pi], pacientes[pi].medicamentos[mj], clock);
        assert recordatorios[..|old(recordatorios)|] == old(recordatorios);
        assert recordatorios[|old(recordatorios)|] == r;
        assert !SentToday(old(recordatorios), pacientes[pi].id, pacientes[pi].medicamentos[mj].nombre, clock.date);
      }
    }

    /** The inner `foreach` of the tick, over the medications of patient `i`. */
    method CronPatient(i: int, clock: Clock, ghost start: nat) returns (enviados: seq<Reminder>)
      requires Valid() && 0 <= i < |pacientes| && start <= |recordatorios|
      requires FreshFrom(recordatorios, start, clock.date)
      requires DueSentBefore(pacientes, recordatorios, clock, i, 0)
      modifies this
      ensures Valid()
      ensures pacientes == old(pacientes) && confirmaciones == old(confirmaciones)
      ensures recordatorios == old(recordatorios) + enviados
      ensures FromDueSlots(pacientes, enviados, clock)
      ensures FreshFrom(recordatorios, start, clock.date)
      ensures DueSentBefore(pacientes, recordatorios, clock, i + 1, 0)
    {
      enviados := [];
      var paciente := pacientes[i];
      var j := 0;
      while j < |paciente.medicamentos|
        invariant 0 <= j <= |paciente.medicamentos|
        invariant Valid() && pacientes == old(pacientes) && confirmaciones == old(confirmaciones)
        invariant recordatorios == old(recordatorios) + enviados
        invariant FromDueSlots(pacientes, enviados, clock)
        invariant FreshFrom(recordatorios, start, clock.date)
        invariant DueSentBefore(pacientes, recordatorios, clock, i, j)
      {
        var enviado := CronMedication(i, j, clock, start);
        FromDueSlotsAppend(pacientes, enviados, enviado, clock);
        AppendAssoc(old(recordatorios), enviados, enviado);
        enviados := enviados + enviado;
        j := j + 1;
      }
    }

    /** The body of the inner `foreach`: a reminder for medication `j` of patient `i` if it is due and none is dated today. */
    method CronMedication(i: int, j: int, clock: Clock, ghost start: nat) returns (enviado: seq<Reminder>)
      requires Valid() && 0 <= i < |pacientes| && 0 <= j < |pacientes[i].medicamentos| && start <= |recordatorios|
      requires FreshFrom(recordatorios, start, clock.date)
      requires DueSentBefore(pacientes, recordatorios, clock, i, j)
      modifies this
      ensures Valid()
      ensures pacientes == old(pacientes) && confirmaciones == old(confirmaciones)
      ensures recordatorios == old(recordatorios) + enviado
      ensures FromDueSlots(pacientes, enviado, clock)
      ensures FreshFrom(recordatorios, start, clock.date)
      ensures DueSentBefore(pacientes, recordatorios, clock, i, j + 1)
    {
      enviado := [];
      var paciente := pacientes[i];
      var medicamento := paciente.medicamentos[j];
      if medicamento.hora == clock.hm {
        var yaEnviado := AlreadySent(paciente.id, medicamento.nombre, clock.date);
        if !yaEnviado {
          AppendDue(i, j, clock);
          enviado := [recordatorios[|recordatorios| - 1]];
        }
      }
      DueSentStep(pacientes, old(recordatorios), recordatorios, clock, i, j);
    }

    /** One step of the tick: append the reminder for due medication `j` of patient `i`. */
    method AppendDue(i: int, j: int, clock: Clock)
      requires Valid() && Due(pacientes, i, j, clock)
      requires !SentToday(recordatorios, pacientes[i].id, pacientes[i].medicamentos[j].nombre, clock.date)
      modifies this
      ensures Valid()
      ensures pacientes == old(pacientes) && confirmaciones == old(confirmaciones)
      ensures recordatorios ==
                old(recordatorios) + [NewReminder(|old(recordatorios)| + 1, pacientes[i], pacientes[i].medicamentos[j], clock)]
      ensures FromDueSlot(pacientes, recordatorios[|recordatorios| - 1], clock)
      ensures forall pid, name :: SentToday(old(recordatorios), pid, name, clock.date) ==>
                SentToday(recordatorios, pid, name, clock.date)
      ensures SentToday(recordatorios, pacientes[i].id, pacientes[i].medicamentos[j].nombre, clock.date)
      ensures forall from :: FreshFrom(old(recordatorios), from, clock.date) ==> FreshFrom(recordatorios, from, clock.date)
    {
      var p := pacientes[i];
      var m := p.medicamentos[j];
      var r := NewReminder(|recordatorios| + 1, p, m, clock);
      var before := recordatorios;
      CountAppendUnconfirmed(before, r);
      recordatorios := before + [r];
      forall pid, name ensures SentToday(before, pid, name, clock.date) ==> SentToday(recordatorios, pid, name, clock.date) {
        SentTodayAppend(before, r, pid, name, clock.date);
      }
      SentTodayAppend(before, r, p.id, m.nombre, clock.date);
      assert recordatorios[|before|] == r;
      assert recordatorios[..|before|] == before;
      forall from | FreshFrom(before, from, clock.date) ensures FreshFrom(recordatorios, from, clock.date) {
        forall k | 0 <= from <= k < |recordatorios|
          ensures !SentToday(recordatorios[..k], recordatorios[k].idPaciente, recordatorios[k].medicamento, clock.date)
        {
          if k < |before| {
            assert recordatorios[..k] == before[..k];
          }
        }
      }
      assert Due(pacientes, i, j, clock) && r == NewReminder(r.id, pacientes[i], pacientes[i].medicamentos[j], clock);
    }
  
    /**
     * `enviarRecordatorio`: append a reminder for the patient's first
     * medication, with no check for one already sent today. An unknown
     * patient fails; so does a patient without medications, where the
     * source's `array_rand` on an empty array throws.
     */
    method SendReminder(idPaciente: int, clock: Clock) returns (r: Result<Reminder, SimError>)
      requires Valid()
      modifies this
      ensures Valid()
      ensures pacientes == old(pacientes) && confirmaciones == old(confirmaciones)
      ensures match FindPatient(pacientes, idPaciente)
        case None => r == Failure(PatientNotFound) && recordatorios == old(recordatorios)
        case Some(i) =>
          if pacientes[i].medicamentos == [] then
            r == Failure(NoMedication) && recordatorios == old(recordatorios)
          else
            r == Success(NewReminder(|old(recordatorios)| + 1, pacientes[i], pacientes[i].medicamentos[0], clock)) &&
            recordatorios == old(recordatorios) + [r.value]
    {
      var found := FindPatient(pacientes, idPaciente);
      if found.None? {
        return Failure(PatientNotFound);
      }
      var paciente := pacientes[found.value];
      if paciente.medicamentos == [] {
        return Failure(NoMedication);
      }
      var recordatorio := NewReminder(|recordatorios| + 1, paciente, paciente.medicamentos[0], clock);
      CountAppendUnconfirmed(recordatorios, recordatorio);
      recordatorios := recordatorios + [recordatorio];
      return Success(recordatorio);
    }

    /**
     * `confirmarToma`: the first reminder with this id that is not yet
     * confirmed becomes confirmed, and one confirmation record is appended.
     * Otherwise nothing changes and the call fails.
     */
    method ConfirmIntake(id: int, clock: Clock) returns (r: Result<Reminder, SimError>)
      requires Valid()
      modifies this
      ensures Valid()
      ensures pacientes == old(pacientes)
      ensures match FirstOpen(old(recordatorios), id)
        case None =>
          r == Failure(ReminderNotFoundOrConfirmed) &&
          recordatorios == old(recordatorios) && confirmaciones == old(confirmaciones)
        case Some(k) =>
          recordatorios == old(recordatorios)[k := ConfirmedReminder(old(recordatorios)[k], clock)] &&
          confirmaciones == old(confirmaciones) + [ConfirmationOf(old(recordatorios)[k], clock)] &&
          r == Success(recordatorios[k])
    {
      var k := 0;
      while k < |recordatorios|
        invariant 0 <= k <= |recordatorios|
        invariant recordatorios == old(recordatorios) && confirmaciones == old(confirmaciones)
        invariant forall q :: 0 <= q < k ==> !(recordatorios[q].id == id && !recordatorios[q].confirmado)
      {
        if recordatorios[k].id == id && !recordatorios[k].confirmado {
          var actualizado := ConfirmedReminder(recordatorios[k], clock);
          CountConfirmOne(recordatorios, k, clock);
          confirmaciones := confirmaciones + [ConfirmationOf(recordatorios[k], clock)];
          recordatorios := recordatorios[k := actualizado];
          return Success(actualizado);
        }
        k := k + 1;
      }
      return Failure(ReminderNotFoundOrConfirmed);
    }

    /**
     * `obtenerEstadisticas` without the success rate: the counts of patients,
     * of all reminders (not only today's), of confirmed ones and of the rest.
     */
    method Statistics() returns (s: Stats)
      ensures s.pacientes == |pacientes| && s.recordatorios == |recordatorios|
      ensures s.confirmados == CountConfirmed(recordatorios) && s.confirmados <= s.recordatorios
      ensures s.pendientes == s.recordatorios - s.confirmados
      ensures Valid() ==> s.confirmados == |confirmaciones|
    {
      var confirmados := 0;
      var k := 0;
      while k < |recordatorios|
        invariant 0 <= k <= |recordatorios|
        invariant confirmados == CountConfirmed(recordatorios[..k])
      {
        assert recordatorios[..k + 1][..k] == recordatorios[..k];
        if recordatorios[k].confirmado {
          confirmados := confirmados + 1;
        }
        k := k + 1;
      }
      assert recordatorios[..k] == recordatorios;
      s := Stats(|pacientes|, |recordatorios|, confirmados, |recordatorios| - confirmados);
    }
  }
}
