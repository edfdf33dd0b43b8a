/**
 * The "next dose" shown on the dashboard (`getNextMedication` in
 * config.php): the active schedule slot with the earliest time not before
 * the current minute, among the user's own medications for a patient or
 * among the medications of confirmed linked patients for a caregiver.
 */
module NextDose {
  import opened Wrappers
  import opened Store

  /** The selected row; `pacienteNombre` is only present in the caregiver query. */
  datatype Dose = Dose(nombre: string, dosis: string, hora: nat, slotId: int, pacienteNombre: Option<string>)

  /** A confirmed link from the patient to the caregiver. */
  predicate ConfirmedLink(links: seq<Link>, patientId: int, caregiverId: int)
  {
    exists k :: 0 <= k < |links| && links[k].patientId == patientId && links[k].caregiverId == caregiverId &&
                links[k].confirmado
  }

  /**
   * Whether a slot passes the query's joins and WHERE clause for `userId`
   * viewing as `kind`, with `cur` the current minute as seconds since midnight.
   */
  predicate Candidate(kind: UserKind, userId: int, s: Slot, meds: seq<Med>, users: seq<User>, links: seq<Link>, cur: nat)
  {
    s.activo && s.hora >= cur && FindMed(meds, s.medId).Some? &&
    var m := FindMed(meds, s.medId).value;
    match kind
    case Patient => m.userId == userId
    case Caregiver => FindUser(users, m.userId).Some? && ConfirmedLink(links, m.userId, userId)
  }

  /** `ORDER BY h.hora ASC LIMIT 1`: the index of a candidate with the smallest time (the first listed on a tie). */
  function Earliest(kind: UserKind, userId: int, slots: seq<Slot>, meds: seq<Med>, users: seq<User>, links: seq<Link>,
                    cur: nat): (r: Option<nat>)
    ensures r.Some? ==> r.value < |slots| && Candidate(kind, userId, slots[r.value], meds, users, links, cur)
    ensures r.Some? ==> forall k :: 0 <= k < |slots| && Candidate(kind, userId, slots[k], meds, users, links, cur) ==>
                          slots[r.value].hora <= slots[k].hora
    ensures r.None? ==> forall k :: 0 <= k < |slots| ==> !Candidate(kind, userId, slots[k], meds, users, links, cur)
  {
    if slots == [] then None
    else
      var n := |slots| - 1;
      var r := Earliest(kind, userId, slots[..n], meds, users, links, cur);
      assert forall k :: 0 <= k < n ==> slots[..n][k] == slots[k];
      if Candidate(kind, userId, slots[n], meds, users, links, cur) && (r.None? || slots[n].hora < slots[r.value].hora)
      then Some(n)
      else r
  }

  /** The row built from the chosen slot, its medication and (for a caregiver) the patient's name. */
  function DoseOf(kind: UserKind, s: Slot, meds: seq<Med>, users: seq<User>): Dose
    requires FindMed(meds, s.medId).Some?
  {
    var m := FindMed(meds, s.medId).value;
    var paciente := if kind == Caregiver && FindUser(users, m.userId).Some? then Some(FindUser(users, m.userId).value.nombre) else None;
    Dose(m.nombre, m.dosis, s.hora, s.id, paciente)
  }

  /** `getNextMedication` at time `now`: the chosen row, or None where PHP returns false. */
  function NextMedication(kind: UserKind, userId: int, t: Tables, now: nat): Option<Dose>
  {
    match Earliest(kind, userId, t.slots, t.meds, t.users, t.links, MinuteStart(now))
    case None => None
    case Some(k) => Some(DoseOf(kind, t.slots[k], t.meds, t.users))
  }

  /**
   * The result is the earliest candidate slot not before the current minute,
   * for a medication the viewer may see; nothing is returned only when no
   * slot qualifies.
   */
  lemma NextMedicationSpec(kind: UserKind, userId: int, t: Tables, now: nat)
    ensures NextMedication(kind, userId, t, now).None? <==>
            forall k :: 0 <= k < |t.slots| ==> !Candidate(kind, userId, t.slots[k], t.meds, t.users, t.links, MinuteStart(now))
    ensures NextMedication(kind, userId, t, now).Some? ==>
            var d := NextMedication(kind, userId, t, now).value;
            && d.hora >= MinuteStart(now)
            && (exists k :: 0 <= k < |t.slots| && t.slots[k].id == d.slotId && t.slots[k].hora == d.hora &&
                           Candidate(kind, userId, t.slots[k], t.meds, t.users, t.links, MinuteStart(now)))
            && (forall k :: 0 <= k < |t.slots| && Candidate(kind, userId, t.slots[k], t.meds, t.users, t.links, MinuteStart(now)) ==>
                              d.hora <= t.slots[k].hora)
            && (d.pacienteNombre.Some? <==> kind == Caregiver)
  {
    var cur := MinuteStart(now);
    var r := Earliest(kind, userId, t.slots, t.meds, t.users, t.links, cur);
    if r.Some? {
      var s := t.slots[r.value];
      assert t.slots[r.value].id == s.id && t.slots[r.value].hora == s.hora;
    } else {
      assert forall k :: 0 <= k < |t.slots| ==> !Candidate(kind, userId, t.slots[k], t.meds, t.users, t.links, cur);
    }
  }

  /**
   * The comparison is with today's clock time only: once every active slot
   * of the day has passed, nothing is shown until midnight, even though
   * tomorrow's first dose is due.
   */
  lemma NoWrapAroundMidnight(kind: UserKind, userId: int, t: Tables, now: nat)
    requires forall k :: 0 <= k < |t.slots| ==> t.slots[k].hora < MinuteStart(now)
    ensures NextMedication(kind, userId, t, now) == None
  {
    NextMedicationSpec(kind, userId, t, now);
  }

  /** A patient is only ever shown a dose of one of their own medications. */
  lemma PatientSeesOwnDoses(userId: int, t: Tables, now: nat)
    requires NextMedication(Patient, userId, t, now).Some?
    ensures exists m :: m in t.meds && m.userId == userId && m.nombre == NextMedication(Patient, userId, t, now).value.nombre
  {
    var k := Earliest(Patient, userId, t.slots, t.meds, t.users, t.links, MinuteStart(now)).value;
    var m := FindMed(t.meds, t.slots[k].medId).value;
    assert m in t.meds;
  }

  /** A caregiver is only shown doses of patients whose link they have confirmed. */
  lemma CaregiverSeesConfirmedPatients(userId: int, t: Tables, now: nat)
    requires NextMedication(Caregiver, userId, t, now).Some?
    ensures exists m :: m in t.meds && ConfirmedLink(t.links, m.userId, userId) &&
                        m.nombre == NextMedication(Caregiver, userId, t, now).value.nombre
  {
    var k := Earliest(Caregiver, userId, t.slots, t.meds, t.users, t.links, MinuteStart(now)).value;
    var m := FindMed(t.meds, t.slots[k].medId).value;
    assert m in t.meds;
  }
}
