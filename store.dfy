/**
 * The MySQL tables the reminder pipeline reads and writes (as created by
 * setup_database.php), held by one `Database` object whose inserts and
 * updates are methods. Timestamps are seconds (local time); `DATE(x)` is
 * `Day(x)` and a TIME column holds the seconds since midnight.
 */
module Store {
  import opened Wrappers

  const SecondsPerDay: nat := 86400

  /** `DATE(t)`: the day a timestamp falls on. */
  function Day(t: nat): nat
  {
    t / SecondsPerDay
  }

  /** `date('H:i')` compared with a TIME column: the current minute, as seconds since midnight. */
  function MinuteStart(t: nat): nat
  {
    t % SecondsPerDay / 60 * 60
  }

  /** `usuarios.tipo`. */
  datatype UserKind = Patient | Caregiver

  /** A row of `usuarios`; `telefono` is nullable. */
  datatype User = User(id: int, nombre: string, tipo: UserKind, telefono: Option<string>)

  /** A row of `medicamentos`; a NULL `instrucciones` reads as "" when interpolated. */
  datatype Med = Med(id: int, userId: int, nombre: string, dosis: string, instrucciones: string)

  datatype Frequency = Daily | Weekdays | Custom

  /** A row of `horarios`: `hora` is a TIME, in seconds since midnight. */
  datatype Slot = Slot(id: int, medId: int, hora: nat, frecuencia: Frequency, activo: bool)

  /** A row of `vinculaciones`. */
  datatype Link = Link(patientId: int, caregiverId: int, confirmado: bool)

  /** `historial_tomas.estado`. */
  datatype IntakeStatus = Taken | Missed | Postponed

  /** A row of `historial_tomas`. */
  datatype Intake = Intake(id: int, slotId: int, at: nat, estado: IntakeStatus)

  /** `recordatorios_whatsapp.estado`. */
  datatype LogStatus = Enviado | Entregado | Leido | Confirmado

  /** A row of `recordatorios_whatsapp`. */
  datatype ReminderLog = ReminderLog(id: int, slotId: int, userId: int, mensaje: string, sentAt: nat,
                                     estado: LogStatus, token: string)

  /** All the tables at one moment. */
  datatype Tables = Tables(users: seq<User>, meds: seq<Med>, slots: seq<Slot>, links: seq<Link>,
                           intakes: seq<Intake>, logs: seq<ReminderLog>)

  // ---------------------------------------------------------------------------
  // Lookups by primary key
  // ---------------------------------------------------------------------------

  function FindUser(users: seq<User>, id: int): (r: Option<User>)
    ensures r.Some? ==> r.value in users && r.value.id == id
    ensures r.None? ==> forall u :: u in users ==> u.id != id
  {
    if users == [] then None
    else if users[0].id == id then Some(users[0])
    else FindUser(users[1..], id)
  }

  function FindMed(meds: seq<Med>, id: int): (r: Option<Med>)
    ensures r.Some? ==> r.value in meds && r.value.id == id
    ensures r.None? ==> forall m :: m in meds ==> m.id != id
  {
    if meds == [] then None
    else if meds[0].id == id then Some(meds[0])
    else FindMed(meds[1..], id)
  }

  predicate SlotExists(slots: seq<Slot>, id: int)
  {
    exists k :: 0 <= k < |slots| && slots[k].id == id
  }

  predicate UserIdsUnique(users: seq<User>)
  {
    forall i, j :: 0 <= i < j < |users| ==> users[i].id != users[j].id
  }

  /** `UNIQUE KEY unique_vinculacion (id_paciente, id_cuidador)`: a pair is linked at most once. */
  predicate LinksUnique(links: seq<Link>)
  {
    forall i, j :: 0 <= i < j < |links| ==>
      !(links[i].patientId == links[j].patientId && links[i].caregiverId == links[j].caregiverId)
  }

  predicate MedIdsUnique(meds: seq<Med>)
  {
    forall i, j :: 0 <= i < j < |meds| ==> meds[i].id != meds[j].id
  }

  predicate SlotIdsUnique(slots: seq<Slot>)
  {
    forall i, j :: 0 <= i < j < |slots| ==> slots[i].id != slots[j].id
  }

  /** AUTO_INCREMENT keys: ascending in insertion order, all below the next one. */
  predicate LogIdsBelow(logs: seq<ReminderLog>, next: int)
  {
    (forall i, j :: 0 <= i < j < |logs| ==> logs[i].id < logs[j].id) &&
    (forall i :: 0 <= i < |logs| ==> logs[i].id < next)
  }

  predicate IntakeIdsBelow(intakes: seq<Intake>, next: int)
  {
    (forall i, j :: 0 <= i < j < |intakes| ==> intakes[i].id < intakes[j].id) &&
    (forall i :: 0 <= i < |intakes| ==> intakes[i].id < next)
  }

  class Database {
    var users: seq<User>
    var meds: seq<Med>
    var slots: seq<Slot>
    var links: seq<Link>
    var intakes: seq<Intake>
    var logs: seq<ReminderLog>
    var nextIntakeId: int
    var nextLogId: int

    function State(): Tables
      reads this
    {
      Tables(users, meds, slots, links, intakes, logs)
    }

    /**
     * Primary keys and the link pairs are unique, and the AUTO_INCREMENT
     * counters are ahead of every key.
     */
    predicate Valid()
      reads this
    {
      UserIdsUnique(users) && MedIdsUnique(meds) && SlotIdsUnique(slots) && LinksUnique(links) &&
      LogIdsBelow(logs, nextLogId) && IntakeIdsBelow(intakes, nextIntakeId)
    }

    constructor (users: seq<User>, meds: seq<Med>, slots: seq<Slot>, links: seq<Link>)
      requires UserIdsUnique(users) && MedIdsUnique(meds) && SlotIdsUnique(slots) && LinksUnique(links)
      ensures State() == Tables(users, meds, slots, links, [], [])
      ensures Valid()
    {
      this.users := users;
      this.meds := meds;
      this.slots := slots;
      this.links := links;
      intakes := [];
      logs := [];
      nextIntakeId := 1;
      nextLogId := 1;
    }

    /** `INSERT INTO recordatorios_whatsapp`: the new row gets the next key. */
    method InsertLog(slotId: int, userId: int, mensaje: string, token: string, at: nat) returns (id: int)
      requires Valid()
      modifies this
      ensures Valid()
      ensures id == old(nextLogId) && nextLogId == id + 1 && nextIntakeId == old(nextIntakeId)
      ensures State() == old(State()).(logs := old(logs) + [ReminderLog(id, slotId, userId, mensaje, at, Enviado, token)])
    {
      id := nextLogId;
      logs := logs + [ReminderLog(id, slotId, userId, mensaje, at, Enviado, token)];
      nextLogId := nextLogId + 1;
    }

    /** `INSERT INTO historial_tomas`: the new row gets the next key. */
    method InsertIntake(slotId: int, at: nat, estado: IntakeStatus) returns (id: int)
      requires Valid()
      modifies this
      ensures Valid()
      ensures id == old(nextIntakeId) && nextIntakeId == id + 1 && nextLogId == old(nextLogId)
      ensures State() == old(State()).(intakes := old(intakes) + [Intake(id, slotId, at, estado)])
    {
      id := nextIntakeId;
      intakes := intakes + [Intake(id, slotId, at, estado)];
      nextIntakeId := nextIntakeId + 1;
    }

    /** `UPDATE recordatorios_whatsapp SET estado = ? WHERE id_recordatorio = ?`, on the row at index `k`. */
    method SetLogStatus(k: nat, estado: LogStatus)
      requires Valid() && k < |logs|
      modifies this
      ensures Valid()
      ensures nextLogId == old(nextLogId) && nextIntakeId == old(nextIntakeId)
      ensures State() == old(State()).(logs := old(logs)[k := old(logs)[k].(estado := estado)])
    {
      logs := logs[k := logs[k].(estado := estado)];
    }

    /** `UPDATE historial_tomas SET estado = ?, fecha_hora_toma = ?`, on the row at index `k`. */
    method SetIntake(k: nat, estado: IntakeStatus, at: nat)
      requires Valid() && k < |intakes|
      modifies this
      ensures Valid()
      ensures nextLogId == old(nextLogId) && nextIntakeId == old(nextIntakeId)
      ensures State() == old(State()).(intakes := old(intakes)[k := old(intakes)[k].(estado := estado, at := at)])
    {
      intakes := intakes[k := intakes[k].(estado := estado, at := at)];
    }
  }
}
