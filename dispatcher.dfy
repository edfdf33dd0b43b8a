/**
 * The production reminder run (enviar_recordatorios.php): select the active
 * slots due at the current minute that have no reminder log today, log a
 * reminder for each, try to send it, and record a provisional "missed"
 * intake only for the sends that went through. The WhatsApp transport is an
 * oracle `delivered(k)` telling whether the k-th send of the run succeeded,
 * and `token(k)` stands for the k-th random confirmation token.
 */
module Dispatcher {
  import opened Wrappers
  import opened Text
  import opened Store

  // ---------------------------------------------------------------------------
  // The due-slot query
  // ---------------------------------------------------------------------------

  /** One row of the query's result: the slot, its medication and its owner. */
  datatype DueRow = DueRow(slotId: int, hora: nat, medNombre: string, dosis: string, instrucciones: string,
                           userId: int, nombre: string, telefono: Option<string>)

  /** Some reminder log for the slot is dated today (`DATE(fecha_envio) = CURDATE()`). */
  predicate LoggedToday(logs: seq<ReminderLog>, slotId: int, now: nat)
  {
    exists k :: 0 <= k < |logs| && logs[k].slotId == slotId && Day(logs[k].sentAt) == Day(now)
  }

  /** The WHERE clause: active, `TIME(hora)` equal to the current "H:i", and not logged today. */
  predicate IsDue(s: Slot, logs: seq<ReminderLog>, now: nat)
  {
    s.activo && s.hora == MinuteStart(now) && !LoggedToday(logs, s.id, now)
  }

  /** The two INNER JOINs find the slot's medication and that medication's owner. */
  predicate Joined(s: Slot, meds: seq<Med>, users: seq<User>)
  {
    FindMed(meds, s.medId).Some? && FindUser(users, FindMed(meds, s.medId).value.userId).Some?
  }

  /** The slot passes the WHERE clause and both joins. */
  predicate Selected(s: Slot, meds: seq<Med>, users: seq<User>, logs: seq<ReminderLog>, now: nat)
  {
    IsDue(s, logs, now) && Joined(s, meds, users)
  }

  function RowOf(s: Slot, meds: seq<Med>, users: seq<User>): DueRow
    requires Joined(s, meds, users)
  {
    var m := FindMed(meds, s.medId).value;
    var u := FindUser(users, m.userId).value;
    DueRow(s.id, s.hora, m.nombre, m.dosis, m.instrucciones, u.id, u.nombre, u.telefono)
  }

  /** The query's result, in slot-table order: one row per selected slot, with its medication and owner. */
  function DueRows(slots: seq<Slot>, meds: seq<Med>, users: seq<User>, logs: seq<ReminderLog>, now: nat)
    : seq<DueRow>
  {
    if slots == [] then []
    else (if Selected(slots[0], meds, users, logs, now) then [RowOf(slots[0], meds, users)] else []) +
         DueRows(slots[1..], meds, users, logs, now)
  }

  /** Every row of the result comes from a selected slot. */
  lemma {:induction false} DueRowsSound(slots: seq<Slot>, meds: seq<Med>, users: seq<User>,
                                        logs: seq<ReminderLog>, now: nat, k: nat)
    requires k < |DueRows(slots, meds, users, logs, now)|
    ensures exists i :: 0 <= i < |slots| && Selected(slots[i], meds, users, logs, now) &&
                        DueRows(slots, meds, users, logs, now)[k] == RowOf(slots[i], meds, users)
  {
    var rows := DueRows(slots, meds, users, logs, now);
    var rest := DueRows(slots[1..], meds, users, logs, now);
    var head := Selected(slots[0], meds, users, logs, now);
    if head && k == 0 {
      assert rows[0] == RowOf(slots[0], meds, users);
    } else {
      var k' := if head then k - 1 else k;
      assert rows[k] == rest[k'];
      DueRowsSound(slots[1..], meds, users, logs, now, k');
      var i :| 0 <= i < |slots[1..]| && Selected(slots[1..][i], meds, users, logs, now) &&
               rest[k'] == RowOf(slots[1..][i], meds, users);
      assert slots[1..][i] == slots[i + 1];
    }
  }

  /** Every selected slot has a row in the result. */
  lemma {:induction false} DueRowsComplete(slots: seq<Slot>, meds: seq<Med>, users: seq<User>,
                                           logs: seq<ReminderLog>, now: nat, i: nat)
    requires i < |slots| && Selected(slots[i], meds, users, logs, now)
    ensures exists k :: 0 <= k < |DueRows(slots, meds, users, logs, now)| &&
                        DueRows(slots, meds, users, logs, now)[k] == RowOf(slots[i], meds, users)
  {
    var rows := DueRows(slots, meds, users, logs, now);
    if i == 0 {
      assert rows[0] == RowOf(slots[0], meds, users);
    } else {
      var rest := DueRows(slots[1..], meds, users, logs, now);
      assert slots[1..][i - 1] == slots[i];
      DueRowsComplete(slots[1..], meds, users, logs, now, i - 1);
      var k' :| 0 <= k' < |rest| && rest[k'] == RowOf(slots[i], meds, users);
      var k := if Selected(slots[0], meds, users, logs, now) then k' + 1 else k';
      assert rows[k] == rest[k'];
    }
  }

  /** No slot appears twice in the result. */
  predicate RowSlotsUnique(rows: seq<DueRow>)
  {
    forall k, l :: 0 <= k < l < |rows| ==> rows[k].slotId != rows[l].slotId
  }

  /** Every selected slot appears once, because slot ids are a primary key. */
  lemma {:induction false} DueRowsDistinct(slots: seq<Slot>, meds: seq<Med>, users: seq<User>,
                                           logs: seq<ReminderLog>, now: nat)
    requires SlotIdsUnique(slots)
    ensures RowSlotsUnique(DueRows(slots, meds, users, logs, now))
  {
    if slots != [] {
      var rows := DueRows(slots, meds, users, logs, now);
      var rest := DueRows(slots[1..], meds, users, logs, now);
      DueRowsDistinct(slots[1..], meds, users, logs, now);
      if Selected(slots[0], meds, users, logs, now) {
        assert rows == [RowOf(slots[0], meds, users)] + rest;
        forall k, l | 0 <= k < l < |rows| ensures rows[k].slotId != rows[l].slotId {
          assert rows[l] == rest[l - 1];
          if k > 0 {
            assert rows[k] == rest[k - 1];
          } else {
            DueRowsSound(slots[1..], meds, users, logs, now, l - 1);
            var i :| 0 <= i < |slots[1..]| && Selected(slots[1..][i], meds, users, logs, now) &&
                     rest[l - 1] == RowOf(slots[1..][i], meds, users);
            assert slots[1..][i] == slots[i + 1];
          }
        }
      } else {
        assert rows == rest;
      }
    }
  }

  /**
   * A slot of the table gets a row exactly when it is active, due at the
   * current minute, not logged today, and joins with a medication and a user.
   */
  lemma DueRowsSelect(slots: seq<Slot>, meds: seq<Med>, users: seq<User>, logs: seq<ReminderLog>, now: nat, j: nat)
    requires SlotIdsUnique(slots) && j < |slots|
    ensures Selected(slots[j], meds, users, logs, now) <==>
            exists k :: 0 <= k < |DueRows(slots, meds, users, logs, now)| &&
                        DueRows(slots, meds, users, logs, now)[k].slotId == slots[j].id
  {
    var rows := DueRows(slots, meds, users, logs, now);
    if Selected(slots[j], meds, users, logs, now) {
      DueRowsComplete(slots, meds, users, logs, now, j);
    } else {
      forall k | 0 <= k < |rows| ensures rows[k].slotId != slots[j].id {
        DueRowsSound(slots, meds, users, logs, now, k);
      }
    }
  }

  // ---------------------------------------------------------------------------
  // formatearNumero
  // ---------------------------------------------------------------------------

  /**
   * `formatearNumero`: keep the digits; a leading 0 becomes the country code
   * 52; then prefix 52 unless the number already starts with it.
   */
  function FormatNumber(numero: string): string
  {
    var d := DigitsOnly(numero);
    var e := if |d| >= 1 && d[0] == '0' then "52" + d[1..] else d;
    if |e| >= 2 && e[..2] == "52" then e else "52" + e
  }

  /** The result is a digit string that starts with 52. */
  lemma FormatNumberShape(numero: string)
    ensures AllDigits(FormatNumber(numero))
    ensures |FormatNumber(numero)| >= 2 && FormatNumber(numero)[..2] == "52"
  {
  }

  /** The four cases of the normaliser. */
  lemma FormatNumberCases(numero: string)
    ensures var d := DigitsOnly(numero);
            (d == [] ==> FormatNumber(numero) == "52") &&
            (|d| >= 1 && d[0] == '0' ==> FormatNumber(numero) == "52" + d[1..]) &&
            (|d| >= 2 && d[..2] == "52" ==> FormatNumber(numero) == d) &&
            (|d| >= 1 && d[0] != '0' && !(|d| >= 2 && d[..2] == "52") ==> FormatNumber(numero) == "52" + d)
  {
    var d := DigitsOnly(numero);
    if |d| >= 1 && d[0] == '0' {
      assert ("52" + d[1..])[..2] == "52";
    }
  }

  /** Formatting an already formatted number changes nothing. */
  lemma FormatNumberIdempotent(numero: string)
    ensures FormatNumber(FormatNumber(numero)) == FormatNumber(numero)
  {
    var r := FormatNumber(numero);
    FormatNumberShape(numero);
    DigitsOnlyOfDigits(r);
    assert r[0] == r[..2][0] == '5';
  }

  /** A NULL phone is read as the empty string. */
  function PhoneText(telefono: Option<string>): string
  {
    if telefono.Some? then telefono.value else ""
  }

  // ---------------------------------------------------------------------------
  // The reminder text
  // ---------------------------------------------------------------------------

  /** A TIME value as MySQL prints it, "HH:MM:SS". */
  function TimeText(secs: nat): string
  {
    Pad2(secs / 3600) + ":" + Pad2(secs % 3600 / 60) + ":" + Pad2(secs % 60)
  }

  /** The pieces of the reminder text, in order. */
  function MessageParts(r: DueRow): seq<string>
  {
    ["MediRecord: RECORDATORIO\nHola ", r.nombre, ", es hora de tu medicamento.\n\n\U{1F48A} Medicamento: ",
     r.medNombre, "\n\U{1F4E6} Dosis: ", r.dosis, "\n\U{1F4DD} Instrucciones: ", r.instrucciones,
     "\n\U{1F552} Hora programada: ", TimeText(r.hora),
     "\n\nPor favor, responda ", "*SI*", " cuando haya tomado su medicamento."]
  }

  function ReminderMessage(r: DueRow): string
  {
    Concat(MessageParts(r))
  }

  /** The message names the patient, the medication, the dose, the instructions
      and the scheduled time, and asks for a "SI" reply. */
  lemma ReminderMessageContents(r: DueRow)
    ensures Contains(ReminderMessage(r), r.nombre)
    ensures Contains(ReminderMessage(r), r.medNombre)
    ensures Contains(ReminderMessage(r), r.dosis)
    ensures Contains(ReminderMessage(r), r.instrucciones)
    ensures Contains(ReminderMessage(r), TimeText(r.hora))
    ensures Contains(ReminderMessage(r), "*SI*")
  {
    var parts := MessageParts(r);
    ContainsPart(parts, 1);
    ContainsPart(parts, 3);
    ContainsPart(parts, 5);
    ContainsPart(parts, 7);
    ContainsPart(parts, 9);
    ContainsPart(parts, 11);
  }

  // ---------------------------------------------------------------------------
  // What one run writes
  // ---------------------------------------------------------------------------

  /** The reminder log of the k-th selected row. */
  function NewLog(r: DueRow, id: int, now: nat, token: string, mensaje: string): ReminderLog
  {
    ReminderLog(id, r.slotId, r.userId, mensaje, now, Enviado, token)
  }

  /** One log per selected row, with consecutive keys starting at `firstId`. */
  function NewLogs(rows: seq<DueRow>, firstId: int, now: nat, token: nat -> string, message: DueRow -> string)
    : seq<ReminderLog>
  {
    seq(|rows|, k requires 0 <= k < |rows| => NewLog(rows[k], firstId + k, now, token(k), message(rows[k])))
  }

  /** The slots of the first `n` rows whose send succeeded, in row order. */
  function DeliveredSlots(rows: seq<DueRow>, delivered: nat -> bool, n: nat): (ds: seq<int>)
    requires n <= |rows|
    ensures |ds| <= n
    ensures forall x :: x in ds <==> exists k :: 0 <= k < n && delivered(k) && rows[k].slotId == x
  {
    if n == 0 then []
    else
      var prev := DeliveredSlots(rows, delivered, n - 1);
      prev + (if delivered(n - 1) then [rows[n - 1].slotId] else [])
  }

  /** A provisional "omitido" intake per delivered slot, with consecutive keys. */
  function NewIntakes(ds: seq<int>, firstId: int, now: nat): seq<Intake>
  {
    seq(|ds|, i requires 0 <= i < |ds| => Intake(firstId + i, ds[i], now, Missed))
  }

  /** A message handed to the transport: the formatted number and the text. */
  datatype Outgoing = Outgoing(numero: string, mensaje: string)

  function Outbox(rows: seq<DueRow>, message: DueRow -> string): seq<Outgoing>
  {
    seq(|rows|, k requires 0 <= k < |rows| => Outgoing(FormatNumber(PhoneText(rows[k].telefono)), message(rows[k])))
  }

  lemma NewLogsSnoc(rows: seq<DueRow>, k: nat, firstId: int, now: nat, token: nat -> string,
                    message: DueRow -> string)
    requires k < |rows|
    ensures NewLogs(rows[..k + 1], firstId, now, token, message) ==
            NewLogs(rows[..k], firstId, now, token, message) + [NewLog(rows[k], firstId + k, now, token(k), message(rows[k]))]
  {
  }

  lemma OutboxSnoc(rows: seq<DueRow>, k: nat, message: DueRow -> string)
    requires k < |rows|
    ensures Outbox(rows[..k + 1], message) ==
            Outbox(rows[..k], message) + [Outgoing(FormatNumber(PhoneText(rows[k].telefono)), message(rows[k]))]
  {
  }

  lemma NewIntakesSnoc(ds: seq<int>, x: int, firstId: int, now: nat)
    ensures NewIntakes(ds + [x], firstId, now) == NewIntakes(ds, firstId, now) + [Intake(firstId + |ds|, x, now, Missed)]
  {
  }

  /**
   * The loop body for one selected row: insert its log, hand the message to
   * the transport, and insert the provisional intake only if `ok`.
   */
  method DispatchRow(db: Database, row: DueRow, now: nat, ok: bool, token: string, mensaje: string)
    returns (out: Outgoing)
    requires db.Valid()
    modifies db
    ensures db.Valid()
    ensures db.nextLogId == old(db.nextLogId) + 1
    ensures db.nextIntakeId == old(db.nextIntakeId) + (if ok then 1 else 0)
    ensures db.State() == old(db.State()).(
              logs := old(db.logs) + [NewLog(row, old(db.nextLogId), now, token, mensaje)],
              intakes := old(db.intakes) + (if ok then [Intake(old(db.nextIntakeId), row.slotId, now, Missed)] else []))
    ensures out == Outgoing(FormatNumber(PhoneText(row.telefono)), mensaje)
  {
    var _ := db.InsertLog(row.slotId, row.userId, mensaje, token, now);
    out := Outgoing(FormatNumber(PhoneText(row.telefono)), mensaje);
    if ok {
      var _ := db.InsertIntake(row.slotId, now, Missed);
    }
  }

  /**
   * The `foreach` over the query's rows, for any way `message` of writing
   * the reminder text.
   */
  method DispatchRows(db: Database, rows: seq<DueRow>, now: nat, delivered: nat -> bool, token: nat -> string,
                      message: DueRow -> string)
    returns (enviados: nat, sent: seq<Outgoing>)
    requires db.Valid()
    modifies db
    ensures db.Valid()
    ensures var ds := DeliveredSlots(rows, delivered, |rows|);
            && db.logs == old(db.logs) + NewLogs(rows, old(db.nextLogId), now, token, message)
            && db.intakes == old(db.intakes) + NewIntakes(ds, old(db.nextIntakeId), now)
            && enviados == |ds|
            && sent == Outbox(rows, message)
    ensures db.users == old(db.users) && db.meds == old(db.meds) && db.slots == old(db.slots) &&
            db.links == old(db.links)
  {
    ghost var start, firstLog, firstIntake := db.State(), db.nextLogId, db.nextIntakeId;
    enviados := 0;
    sent := [];
    var k := 0;
    while k < |rows|
      invariant 0 <= k <= |rows|
      invariant db.Valid()
      invariant DispatchedUpTo(rows, k, now, delivered, token, message, start, firstLog, firstIntake,
                               db.State(), db.nextLogId, db.nextIntakeId, enviados, sent)
    {
      enviados, sent := DispatchStep(db, rows, k, now, delivered, token, message, enviados, sent, start, firstLog, firstIntake);
      k := k + 1;
    }
    assert rows[..k] == rows;
  }

  /**
   * The loop invariant: the first `k` rows have their logs, the delivered
   * ones their intakes and the count, and every message is in the outbox.
   */
  ghost predicate DispatchedUpTo(rows: seq<DueRow>, k: nat, now: nat, delivered: nat -> bool, token: nat -> string,
                                 message: DueRow -> string, start: Tables, firstLog: int, firstIntake: int,
                                 t: Tables, nextLogId: int, nextIntakeId: int, enviados: nat, sent: seq<Outgoing>)
  {
    && k <= |rows|
    && var ds := DeliveredSlots(rows, delivered, k);
    && t == start.(logs := start.logs + NewLogs(rows[..k], firstLog, now, token, message),
                   intakes := start.intakes + NewIntakes(ds, firstIntake, now))
    && nextLogId == firstLog + k
    && enviados == |ds| && nextIntakeId == firstIntake + enviados
    && sent == Outbox(rows[..k], message)
  }

  /** The body of the `foreach` for row `k`: dispatch it, count it if delivered, keep its message. */
  method DispatchStep(db: Database, rows: seq<DueRow>, k: nat, now: nat, delivered: nat -> bool, token: nat -> string,
                      message: DueRow -> string, enviados: nat, sent: seq<Outgoing>,
                      ghost start: Tables, ghost firstLog: int, ghost firstIntake: int)
    returns (enviados': nat, sent': seq<Outgoing>)
    requires db.Valid() && k < |rows|
    requires DispatchedUpTo(rows, k, now, delivered, token, message, start, firstLog, firstIntake,
                            db.State(), db.nextLogId, db.nextIntakeId, enviados, sent)
    modifies db
    ensures db.Valid()
    ensures DispatchedUpTo(rows, k + 1, now, delivered, token, message, start, firstLog, firstIntake,
                           db.State(), db.nextLogId, db.nextIntakeId, enviados', sent')
  {
    ghost var ds := DeliveredSlots(rows, delivered, k);
    var out := DispatchRow(db, rows[k], now, delivered(k), token(k), message(rows[k]));
    sent' := sent + [out];
    NewLogsSnoc(rows, k, firstLog, now, token, message);
    OutboxSnoc(rows, k, message);
    enviados' := enviados;
    if delivered(k) {
      enviados' := enviados + 1;
      NewIntakesSnoc(ds, rows[k].slotId, firstIntake, now);
    }
  }

  /**
   * One cron run at time `now`. Every selected row gets its log before the
   * send is attempted; the intake row and the count follow the transport.
   */
  method Dispatch(db: Database, now: nat, delivered: nat -> bool, token: nat -> string)
    returns (enviados: nat, sent: seq<Outgoing>)
    requires db.Valid()
    modifies db
    ensures db.Valid()
    ensures var rows := DueRows(old(db.slots), old(db.meds), old(db.users), old(db.logs), now);
            var ds := DeliveredSlots(rows, delivered, |rows|);
            && db.logs == old(db.logs) + NewLogs(rows, old(db.nextLogId), now, token, ReminderMessage)
            && db.intakes == old(db.intakes) + NewIntakes(ds, old(db.nextIntakeId), now)
            && enviados == |ds|
            && sent == Outbox(rows, ReminderMessage)
    ensures db.users == old(db.users) && db.meds == old(db.meds) && db.slots == old(db.slots) &&
            db.links == old(db.links)
  {
    var rows := DueRows(db.slots, db.meds, db.users, db.logs, now);
    enviados, sent := DispatchRows(db, rows, now, delivered, token, ReminderMessage);
  }

  // ---------------------------------------------------------------------------
  // Properties of a run
  // ---------------------------------------------------------------------------

  /** At most one reminder log per slot and day. */
  predicate OnePerSlotPerDay(logs: seq<ReminderLog>)
  {
    forall i, j :: 0 <= i < j < |logs| && logs[i].slotId == logs[j].slotId ==>
      Day(logs[i].sentAt) != Day(logs[j].sentAt)
  }

  /**
   * A run keeps "at most one reminder per slot per day": the new logs are
   * for distinct slots, and none of those slots was logged today.
   */
  lemma RunKeepsOnePerSlotPerDay(slots: seq<Slot>, meds: seq<Med>, users: seq<User>, logs: seq<ReminderLog>,
                                 now: nat, firstId: int, token: nat -> string, message: DueRow -> string)
    requires SlotIdsUnique(slots) && OnePerSlotPerDay(logs)
    ensures OnePerSlotPerDay(logs + NewLogs(DueRows(slots, meds, users, logs, now), firstId, now, token, message))
  {
    var rows := DueRows(slots, meds, users, logs, now);
    var added := NewLogs(rows, firstId, now, token, message);
    var all := logs + added;
    DueRowsDistinct(slots, meds, users, logs, now);
    forall i, j | 0 <= i < j < |all| && all[i].slotId == all[j].slotId
      ensures Day(all[i].sentAt) != Day(all[j].sentAt)
    {
      if j >= |logs| {
        var kj := j - |logs|;
        assert all[j] == added[kj] == NewLog(rows[kj], firstId + kj, now, token(kj), message(rows[kj]));
        if i >= |logs| {
          assert false;
        } else {
          DueRowsSound(slots, meds, users, logs, now, kj);
          assert all[i] == logs[i];
        }
      } else {
        assert all[i] == logs[i] && all[j] == logs[j];
      }
    }
  }

  lemma LoggedTodayGrows(logs: seq<ReminderLog>, extra: seq<ReminderLog>, slotId: int, now: nat)
    requires LoggedToday(logs, slotId, now)
    ensures LoggedToday(logs + extra, slotId, now)
  {
    var k :| 0 <= k < |logs| && logs[k].slotId == slotId && Day(logs[k].sentAt) == Day(now);
    assert (logs + extra)[k] == logs[k];
  }

  /** After a run, every selected slot has a log dated today. */
  lemma RunLogsEverySelectedSlot(slots: seq<Slot>, meds: seq<Med>, users: seq<User>, logs: seq<ReminderLog>,
                                 now: nat, firstId: int, token: nat -> string, message: DueRow -> string, i: nat)
    requires i < |slots| && Selected(slots[i], meds, users, logs, now)
    ensures LoggedToday(logs + NewLogs(DueRows(slots, meds, users, logs, now), firstId, now, token, message), slots[i].id, now)
  {
    var rows := DueRows(slots, meds, users, logs, now);
    var all := logs + NewLogs(rows, firstId, now, token, message);
    DueRowsComplete(slots, meds, users, logs, now, i);
    var k :| 0 <= k < |rows| && rows[k] == RowOf(slots[i], meds, users);
    assert all[|logs| + k] == NewLog(rows[k], firstId + k, now, token(k), message(rows[k]));
  }

  /**
   * A second run at any time `now2` in the same minute of the same day
   * selects nothing, whatever the transport did the first time: a failed
   * send still left its log.
   */
  lemma RerunSelectsNothing(slots: seq<Slot>, meds: seq<Med>, users: seq<User>, logs: seq<ReminderLog>,
                            now: nat, now2: nat, firstId: int, token: nat -> string, message: DueRow -> string)
    requires Day(now2) == Day(now) && MinuteStart(now2) == MinuteStart(now)
    ensures DueRows(slots, meds, users, logs + NewLogs(DueRows(slots, meds, users, logs, now), firstId, now, token, message), now2) == []
  {
    var added := NewLogs(DueRows(slots, meds, users, logs, now), firstId, now, token, message);
    var again := DueRows(slots, meds, users, logs + added, now2);
    if again != [] {
      DueRowsSound(slots, meds, users, logs + added, now2, 0);
      var i :| 0 <= i < |slots| && Selected(slots[i], meds, users, logs + added, now2) &&
               again[0] == RowOf(slots[i], meds, users);
      if LoggedToday(logs, slots[i].id, now) {
        LoggedTodayGrows(logs, added, slots[i].id, now);
      } else {
        RunLogsEverySelectedSlot(slots, meds, users, logs, now, firstId, token, message, i);
      }
    }
  }

  /** The provisional intake rows are exactly for the selected slots whose send succeeded. */
  lemma IntakesOnlyForDelivered(rows: seq<DueRow>, delivered: nat -> bool, firstId: int, now: nat, slotId: int)
    ensures (exists i :: 0 <= i < |rows| && delivered(i) && rows[i].slotId == slotId) <==>
            exists t :: t in NewIntakes(DeliveredSlots(rows, delivered, |rows|), firstId, now) && t.slotId == slotId
  {
    var ds := DeliveredSlots(rows, delivered, |rows|);
    var ins := NewIntakes(ds, firstId, now);
    if slotId in ds {
      var i :| 0 <= i < |ds| && ds[i] == slotId;
      assert ins[i].slotId == slotId;
    }
  }
}
