/**
 * The WhatsApp helpers of config.php: `enviarWhatsApp`, which cleans the
 * phone number, prefixes the message and logs it as sent, and
 * `notificarConfirmacionCuidador`, which fans a confirmation out to the
 * patient's confirmed caregivers.
 */
module Notifier {
  import opened Wrappers
  import opened Text
  import opened Store

  /** The two `$whatsapp_config` entries the helpers read. */
  datatype Config = Config(messagePrefix: string, enabled: bool)

  const DefaultConfig: Config := Config("MediRecord:", true)

  /**
   * The result of `enviarWhatsApp`: `false` (disabled or no phone), a row
   * written (`success => true` with the new key and the token; `to` is the
   * cleaned number, which the source only writes to its error log), or a
   * failed insert (`success => false`).
   */
  datatype SendResult = NotSent | Sent(logId: int, token: string, to: string) | Failed

  // ---------------------------------------------------------------------------
  // Phone number and message
  // ---------------------------------------------------------------------------

  predicate StartsWithPlus(s: string)
  {
    |s| > 0 && s[0] == '+'
  }

  /** Strip every non-digit, then put "52" in front of a ten-digit national number. */
  function NormalizePhone(telefono: string): string
  {
    var d := DigitsOnly(telefono);
    if !StartsWithPlus(d) && |d| == 10 then "52" + d else d
  }

  /** The '+' test runs after the non-digits are gone, so it never fails. */
  lemma PlusTestAlwaysPasses(telefono: string)
    ensures !StartsWithPlus(DigitsOnly(telefono))
  {
    var d := DigitsOnly(telefono);
    if |d| > 0 {
      assert IsDigit(d[0]);
    }
  }

  /** Only the length decides: ten digits get the prefix, any other count is kept as it is. */
  lemma NormalizePhoneCases(telefono: string)
    ensures var d := DigitsOnly(telefono);
            && (|d| == 10 ==> NormalizePhone(telefono) == "52" + d)
            && (|d| != 10 ==> NormalizePhone(telefono) == d)
  {
    PlusTestAlwaysPasses(telefono);
  }

  lemma NormalizePhoneDigits(telefono: string)
    ensures AllDigits(NormalizePhone(telefono))
    ensures |NormalizePhone(telefono)| != 10
  {
    PlusTestAlwaysPasses(telefono);
  }

  lemma NormalizePhoneIdempotent(telefono: string)
    ensures NormalizePhone(NormalizePhone(telefono)) == NormalizePhone(telefono)
  {
    var n := NormalizePhone(telefono);
    NormalizePhoneDigits(telefono);
    DigitsOnlyOfDigits(n);
    PlusTestAlwaysPasses(n);
  }

  /** The text stored in the log: the configured prefix, a space, the message. */
  function FullMessage(config: Config, mensaje: string): string
  {
    config.messagePrefix + " " + mensaje
  }

  /** The stored text splits back into the prefix, one space and the message itself. */
  lemma FullMessageParts(config: Config, mensaje: string)
    ensures var m := FullMessage(config, mensaje);
            && |m| == |config.messagePrefix| + 1 + |mensaje|
            && m[..|config.messagePrefix|] == config.messagePrefix
            && m[|config.messagePrefix|] == ' ' && m[|config.messagePrefix| + 1..] == mensaje
  {
  }

  /** PHP `empty()` on a nullable column. */
  predicate HasPhone(telefono: Option<string>)
  {
    telefono.Some? && !PhpEmpty(telefono.value)
  }

  // ---------------------------------------------------------------------------
  // enviarWhatsApp
  // ---------------------------------------------------------------------------

  /**
   * Whether MySQL accepts the INSERT: both key columns are NOT NULL and are
   * foreign keys into `horarios` and `usuarios`.
   */
  predicate InsertAccepted(slots: seq<Slot>, users: seq<User>, slotId: Option<int>, userId: Option<int>)
  {
    slotId.Some? && userId.Some? && SlotExists(slots, slotId.value) && FindUser(users, userId.value).Some?
  }

  /**
   * `enviarWhatsApp` at time `now`, with `token` standing for the fresh
   * random confirmation token. Disabled sending or an empty phone returns
   * `false` untouched; an insert MySQL rejects is caught and reported as a
   * failure with nothing written; otherwise one 'enviado' row is logged.
   */
  method SendWhatsApp(db: Database, config: Config, telefono: Option<string>, mensaje: string,
                      slotId: Option<int>, userId: Option<int>, token: string, now: nat)
    returns (r: SendResult)
    requires db.Valid()
    modifies db
    ensures db.Valid() && db.nextIntakeId == old(db.nextIntakeId)
    ensures !config.enabled || !HasPhone(telefono) ==>
              r == NotSent && db.State() == old(db.State()) && db.nextLogId == old(db.nextLogId)
    ensures config.enabled && HasPhone(telefono) && !InsertAccepted(old(db.slots), old(db.users), slotId, userId) ==>
              r == Failed && db.State() == old(db.State()) && db.nextLogId == old(db.nextLogId)
    ensures config.enabled && HasPhone(telefono) && InsertAccepted(old(db.slots), old(db.users), slotId, userId) ==>
              && r == Sent(old(db.nextLogId), token, NormalizePhone(telefono.value))
              && db.nextLogId == old(db.nextLogId) + 1
              && db.State() == old(db.State()).(logs := old(db.logs) +
                   [ReminderLog(old(db.nextLogId), slotId.value, userId.value, FullMessage(config, mensaje), now, Enviado, token)])
  {
    if !config.enabled || !HasPhone(telefono) {
      return NotSent;
    }
    var to := NormalizePhone(telefono.value);
    var full := FullMessage(config, mensaje);
    if !InsertAccepted(db.slots, db.users, slotId, userId) {
      return Failed;
    }
    var id := db.InsertLog(slotId.value, userId.value, full, token, now);
    r := Sent(id, token, to);
  }

  // ---------------------------------------------------------------------------
  // notificarConfirmacionCuidador
  // ---------------------------------------------------------------------------

  /** The fields of the confirmed dose the notification quotes. */
  datatype DoseInfo = DoseInfo(pacienteNombre: string, nombreMedicamento: string, dosis: string)

  /** `date('H:i')` of a timestamp. */
  function ClockOf(now: nat): string
  {
    Pad2(now % SecondsPerDay / 3600) + ":" + Pad2(now % 3600 / 60)
  }

  function NotifyMessage(info: DoseInfo, now: nat): string
  {
    info.pacienteNombre + " ha confirmado la toma de " + info.nombreMedicamento + " - " +
    info.dosis + " a las " + ClockOf(now)
  }

  /** The query rows: the caregiver of every confirmed link of the patient, in link order. */
  function LinkedCaregivers(links: seq<Link>, users: seq<User>, pacienteId: int): seq<User>
  {
    if links == [] then []
    else
      var l := links[|links| - 1];
      var c := FindUser(users, l.caregiverId);
      LinkedCaregivers(links[..|links| - 1], users, pacienteId) +
      (if l.patientId == pacienteId && l.confirmado && c.Some? then [c.value] else [])
  }

  /** The rows that pass the `!empty($cuidador['telefono'])` test, in order. */
  function Recipients(cs: seq<User>): seq<User>
  {
    if cs == [] then []
    else Recipients(cs[..|cs| - 1]) + (if HasPhone(cs[|cs| - 1].telefono) then [cs[|cs| - 1]] else [])
  }

  /** A link that makes `u` one of the query rows for the patient. */
  predicate Joins(l: Link, users: seq<User>, pacienteId: int, u: User)
  {
    l.patientId == pacienteId && l.confirmado && FindUser(users, l.caregiverId) == Some(u)
  }

  /** The query returns a user exactly when a confirmed link of the patient names them. */
  lemma {:induction false} LinkedCaregiversExactly(links: seq<Link>, users: seq<User>, pacienteId: int, u: User)
    ensures u in LinkedCaregivers(links, users, pacienteId) <==>
            exists k :: 0 <= k < |links| && Joins(links[k], users, pacienteId, u)
  {
    if links != [] {
      var n := |links| - 1;
      var init := links[..n];
      var l := links[n];
      var found := FindUser(users, l.caregiverId);
      var tail := if l.patientId == pacienteId && l.confirmado && found.Some? then [found.value] else [];
      assert LinkedCaregivers(links, users, pacienteId) == LinkedCaregivers(init, users, pacienteId) + tail;
      assert u in tail <==> Joins(l, users, pacienteId, u);
      LinkedCaregiversExactly(init, users, pacienteId, u);
      if u in LinkedCaregivers(links, users, pacienteId) {
        if u in tail {
          assert Joins(links[n], users, pacienteId, u);
        } else {
          var k :| 0 <= k < n && Joins(init[k], users, pacienteId, u);
          assert links[k] == init[k];
        }
      } else {
        forall k | 0 <= k < |links|
          ensures !Joins(links[k], users, pacienteId, u)
        {
          if k < n {
            assert init[k] == links[k];
          }
        }
      }
    }
  }

  /** The phone test keeps exactly the rows with a phone. */
  lemma {:induction false} RecipientsFilter(cs: seq<User>, u: User)
    ensures u in Recipients(cs) <==> u in cs && HasPhone(u.telefono)
  {
    if cs != [] {
      var n := |cs| - 1;
      RecipientsFilter(cs[..n], u);
      assert cs == cs[..n] + [cs[n]];
    }
  }

  /** Someone is notified exactly when a confirmed link joins them to the patient and they have a phone. */
  lemma RecipientsExactly(links: seq<Link>, users: seq<User>, pacienteId: int, u: User)
    ensures u in Recipients(LinkedCaregivers(links, users, pacienteId)) <==>
            HasPhone(u.telefono) && exists k :: 0 <= k < |links| && Joins(links[k], users, pacienteId, u)
  {
    LinkedCaregiversExactly(links, users, pacienteId, u);
    RecipientsFilter(LinkedCaregivers(links, users, pacienteId), u);
  }

  /**
   * With each (patient, caregiver) pair linked at most once, the query
   * returns every caregiver once: no two rows share a user id.
   */
  lemma {:induction false} LinkedCaregiversUnique(links: seq<Link>, users: seq<User>, pacienteId: int)
    requires LinksUnique(links)
    ensures UserIdsUnique(LinkedCaregivers(links, users, pacienteId))
  {
    if links != [] {
      var n := |links| - 1;
      var init := links[..n];
      var l := links[n];
      var prev := LinkedCaregivers(init, users, pacienteId);
      var c := FindUser(users, l.caregiverId);
      var tail := if l.patientId == pacienteId && l.confirmado && c.Some? then [c.value] else [];
      assert LinksUnique(init);
      LinkedCaregiversUnique(init, users, pacienteId);
      if tail != [] {
        forall i | 0 <= i < |prev|
          ensures prev[i].id != c.value.id
        {
          LinkedCaregiversExactly(init, users, pacienteId, prev[i]);
          var k :| 0 <= k < |init| && Joins(init[k], users, pacienteId, prev[i]);
          assert links[k] == init[k];
        }
      }
      assert LinkedCaregivers(links, users, pacienteId) == prev + tail;
    }
  }

  /** Filtering on the phone keeps ids unique. */
  lemma {:induction false} RecipientsUnique(cs: seq<User>)
    requires UserIdsUnique(cs)
    ensures UserIdsUnique(Recipients(cs))
  {
    if cs != [] {
      var n := |cs| - 1;
      var prev := Recipients(cs[..n]);
      assert UserIdsUnique(cs[..n]);
      RecipientsUnique(cs[..n]);
      forall i | 0 <= i < |prev|
        ensures prev[i].id != cs[n].id
      {
        RecipientsFilter(cs[..n], prev[i]);
        var k :| 0 <= k < n && cs[..n][k] == prev[i];
      }
    }
  }

  /** Every caregiver is notified at most once. */
  lemma RecipientsOfLinksUnique(links: seq<Link>, users: seq<User>, pacienteId: int)
    requires LinksUnique(links)
    ensures UserIdsUnique(Recipients(LinkedCaregivers(links, users, pacienteId)))
  {
    LinkedCaregiversUnique(links, users, pacienteId);
    RecipientsUnique(LinkedCaregivers(links, users, pacienteId));
  }

  lemma RecipientsStep(cs: seq<User>, i: nat)
    requires i < |cs|
    ensures Recipients(cs[..i + 1]) == Recipients(cs[..i]) + (if HasPhone(cs[i].telefono) then [cs[i]] else [])
  {
    assert cs[..i + 1][..i] == cs[..i];
  }

  /** Every result is a failed insert. */
  predicate AllFailed(results: seq<SendResult>)
  {
    forall j | 0 <= j < |results| :: results[j] == Failed
  }

  /** Every result is a written row, with keys counting up from `first`. */
  predicate AllSentFrom(results: seq<SendResult>, first: int)
  {
    forall j | 0 <= j < |results| :: results[j].Sent? && results[j].logId == first + j
  }

  /** The rows the corrected helper writes, one per recipient, keys from `firstId` on. */
  function NotifyLogs(rs: seq<User>, firstId: int, slotId: int, mensaje: string, now: nat, token: nat -> string): (logs: seq<ReminderLog>)
    ensures |logs| == |rs|
  {
    if rs == [] then []
    else
      var n := |rs| - 1;
      NotifyLogs(rs[..n], firstId, slotId, mensaje, now, token) +
      [ReminderLog(firstId + n, slotId, rs[n].id, mensaje, now, Enviado, token(n))]
  }

  lemma NotifyLogsSnoc(rs: seq<User>, u: User, firstId: int, slotId: int, mensaje: string, now: nat, token: nat -> string)
    ensures NotifyLogs(rs + [u], firstId, slotId, mensaje, now, token) ==
            NotifyLogs(rs, firstId, slotId, mensaje, now, token) +
            [ReminderLog(firstId + |rs|, slotId, u.id, mensaje, now, Enviado, token(|rs|))]
  {
    assert (rs + [u])[..|rs|] == rs;
  }

  /** One pass of the loop: a caregiver with a phone gets one `enviarWhatsApp` call, one without is skipped. */
  method NotifyOne(db: Database, config: Config, c: User, slotId: Option<int>, mensaje: string, now: nat, token: string)
    returns (r: Option<SendResult>)
    requires db.Valid() && config.enabled && FindUser(db.users, c.id).Some?
    modifies db
    ensures db.Valid() && db.nextIntakeId == old(db.nextIntakeId)
    ensures r.Some? <==> HasPhone(c.telefono)
    ensures db.State() == old(db.State()).(logs := db.logs)
    ensures r.None? || slotId.None? ==> db.logs == old(db.logs) && db.nextLogId == old(db.nextLogId)
    ensures r.Some? && slotId.None? ==> r.value == Failed
    ensures r.Some? && slotId.Some? && SlotExists(old(db.slots), slotId.value) ==>
              && r.value.Sent? && r.value.logId == old(db.nextLogId)
              && db.nextLogId == old(db.nextLogId) + 1
              && db.logs == old(db.logs) +
                   [ReminderLog(old(db.nextLogId), slotId.value, c.id, FullMessage(config, mensaje), now, Enviado, token)]
  {
    r := None;
    if HasPhone(c.telefono) {
      var sent := SendWhatsApp(db, config, c.telefono, mensaje, slotId, Some(c.id), token, now);
      r := Some(sent);
    }
  }

  /**
   * `notificarConfirmacionCuidador` as written: every caregiver row with a
   * phone gets one `enviarWhatsApp` call, but with no `id_horario`; the NOT
   * NULL column rejects each insert and the caught exception turns the call
   * into a failure, so no caregiver message is ever logged.
   */
  method NotifyCaregivers(db: Database, config: Config, pacienteId: int, info: DoseInfo, now: nat, token: nat -> string)
    returns (notified: seq<User>, results: seq<SendResult>)
    requires db.Valid() && config.enabled
    modifies db
    ensures db.Valid()
    ensures notified == Recipients(LinkedCaregivers(old(db.links), old(db.users), pacienteId))
    ensures UserIdsUnique(notified)
    ensures db.State() == old(db.State()) && db.nextLogId == old(db.nextLogId) && db.nextIntakeId == old(db.nextIntakeId)
    ensures |results| == |notified| && AllFailed(results)
  {
    var cs := LinkedCaregivers(db.links, db.users, pacienteId);
    LinkedCaregiversExist(db.links, db.users, pacienteId);
    RecipientsOfLinksUnique(db.links, db.users, pacienteId);
    notified, results := SendToEach(db, config, cs, NotifyMessage(info, now), now, token);
  }

  /** The loop of the helper as written over the query rows `cs`, each call without a slot. */
  method SendToEach(db: Database, config: Config, cs: seq<User>, mensaje: string, now: nat, token: nat -> string)
    returns (notified: seq<User>, results: seq<SendResult>)
    requires db.Valid() && config.enabled
    requires forall c | c in cs :: FindUser(db.users, c.id).Some?
    modifies db
    ensures db.Valid()
    ensures notified == Recipients(cs)
    ensures db.State() == old(db.State()) && db.nextLogId == old(db.nextLogId) && db.nextIntakeId == old(db.nextIntakeId)
    ensures |results| == |notified| && AllFailed(results)
  {
    notified, results := [], [];
    var i := 0;
    while i < |cs|
      invariant 0 <= i <= |cs|
      invariant db.Valid() && db.State() == old(db.State())
      invariant db.nextLogId == old(db.nextLogId) && db.nextIntakeId == old(db.nextIntakeId)
      invariant notified == Recipients(cs[..i]) && |results| == |notified| && AllFailed(results)
    {
      var c := cs[i];
      RecipientsStep(cs, i);
      assert c in cs;
      var r := NotifyOne(db, config, c, None, mensaje, now, token(|notified|));
      if r.Some? {
        notified := notified + [c];
        results := results + [r.value];
      }
      i := i + 1;
    }
    assert cs[..i] == cs;
  }

  /**
   * The evidently intended helper: the caller passes the confirmed slot, and
   * every caregiver with a phone gets exactly one 'enviado' row, keyed in
   * call order.
   */
  method NotifyCaregiversFixed(db: Database, config: Config, pacienteId: int, slotId: int, info: DoseInfo,
                               now: nat, token: nat -> string)
    returns (notified: seq<User>, results: seq<SendResult>)
    requires db.Valid() && config.enabled && SlotExists(db.slots, slotId)
    modifies db
    ensures db.Valid() && db.nextIntakeId == old(db.nextIntakeId)
    ensures notified == Recipients(LinkedCaregivers(old(db.links), old(db.users), pacienteId))
    ensures UserIdsUnique(notified)
    ensures db.nextLogId == old(db.nextLogId) + |notified|
    ensures db.State() == old(db.State()).(logs := old(db.logs) +
              NotifyLogs(notified, old(db.nextLogId), slotId, FullMessage(config, NotifyMessage(info, now)), now, token))
    ensures |results| == |notified| && AllSentFrom(results, old(db.nextLogId))
  {
    var cs := LinkedCaregivers(db.links, db.users, pacienteId);
    LinkedCaregiversExist(db.links, db.users, pacienteId);
    RecipientsOfLinksUnique(db.links, db.users, pacienteId);
    notified, results := SendToEachWithSlot(db, config, cs, slotId, NotifyMessage(info, now), now, token);
  }

  /** The loop of the corrected helper over the query rows `cs`. */
  method SendToEachWithSlot(db: Database, config: Config, cs: seq<User>, slotId: int, mensaje: string,
                            now: nat, token: nat -> string)
    returns (notified: seq<User>, results: seq<SendResult>)
    requires db.Valid() && config.enabled && SlotExists(db.slots, slotId)
    requires forall c | c in cs :: FindUser(db.users, c.id).Some?
    modifies db
    ensures db.Valid() && db.nextIntakeId == old(db.nextIntakeId)
    ensures notified == Recipients(cs)
    ensures db.nextLogId == old(db.nextLogId) + |notified|
    ensures db.State() == old(db.State()).(logs := old(db.logs) +
              NotifyLogs(notified, old(db.nextLogId), slotId, FullMessage(config, mensaje), now, token))
    ensures |results| == |notified| && AllSentFrom(results, old(db.nextLogId))
  {
    ghost var full := FullMessage(config, mensaje);
    ghost var first := db.nextLogId;
    ghost var start := db.State();
    notified, results := [], [];
    var i := 0;
    while i < |cs|
      invariant 0 <= i <= |cs|
      invariant db.Valid() && db.nextIntakeId == old(db.nextIntakeId)
      invariant db.State() == start.(logs := db.logs)
      invariant Sending(cs, i, notified, results, first, slotId, full, now, token, start.logs, db.logs, db.nextLogId)
    {
      assert cs[i] in cs;
      notified, results := SendOneWithSlot(db, config, cs, i, notified, results, slotId, mensaje, now, token, first, start);
      i := i + 1;
    }
    assert cs[..i] == cs;
  }

  /** One pass of the corrected loop: `enviarWhatsApp` for caregiver `i` if they have a phone. */
  method SendOneWithSlot(db: Database, config: Config, cs: seq<User>, i: nat, notified: seq<User>, results: seq<SendResult>,
                         slotId: int, mensaje: string, now: nat, token: nat -> string, ghost first: int, ghost start: Tables)
    returns (notified': seq<User>, results': seq<SendResult>)
    requires db.Valid() && config.enabled && SlotExists(db.slots, slotId)
    requires i < |cs| && FindUser(db.users, cs[i].id).Some?
    requires db.State() == start.(logs := db.logs)
    requires Sending(cs, i, notified, results, first, slotId, FullMessage(config, mensaje), now, token, start.logs, db.logs, db.nextLogId)
    modifies db
    ensures db.Valid() && db.nextIntakeId == old(db.nextIntakeId)
    ensures db.State() == start.(logs := db.logs)
    ensures Sending(cs, i + 1, notified', results', first, slotId, FullMessage(config, mensaje), now, token, start.logs, db.logs, db.nextLogId)
  {
    ghost var logs0, next0 := db.logs, db.nextLogId;
    var tok := token(|notified|);
    var r := NotifyOne(db, config, cs[i], Some(slotId), mensaje, now, tok);
    SendingStep(cs, i, notified, results, first, slotId, FullMessage(config, mensaje), now, token, start.logs, logs0, next0,
                r, db.logs, db.nextLogId);
    notified', results' := notified, results;
    if r.Some? {
      notified' := notified + [cs[i]];
      results' := results + [r.value];
    }
  }

  /**
   * The loop invariant of the corrected helper: the caregivers with a phone
   * among the first `i` have been sent to, in order, with consecutive keys.
   */
  ghost predicate Sending(cs: seq<User>, i: nat, notified: seq<User>, results: seq<SendResult>, first: int, slotId: int,
                         full: string, now: nat, token: nat -> string, logs0: seq<ReminderLog>, logs: seq<ReminderLog>,
                         nextLogId: int)
  {
    && i <= |cs|
    && notified == Recipients(cs[..i])
    && |results| == |notified| && AllSentFrom(results, first)
    && nextLogId == first + |notified|
    && logs == logs0 + NotifyLogs(notified, first, slotId, full, now, token)
  }

  /** One pass of the corrected loop keeps its invariant, whether or not the caregiver has a phone. */
  lemma SendingStep(cs: seq<User>, i: nat, notified: seq<User>, results: seq<SendResult>, first: int, slotId: int,
                    full: string, now: nat, token: nat -> string, logs0: seq<ReminderLog>, logs: seq<ReminderLog>,
                    nextLogId: int, r: Option<SendResult>, logs': seq<ReminderLog>, nextLogId': int)
    requires i < |cs| && Sending(cs, i, notified, results, first, slotId, full, now, token, logs0, logs, nextLogId)
    requires r.Some? <==> HasPhone(cs[i].telefono)
    requires r.None? ==> logs' == logs && nextLogId' == nextLogId
    requires r.Some? ==> && r.value.Sent? && r.value.logId == nextLogId && nextLogId' == nextLogId + 1
                         && logs' == logs + [ReminderLog(nextLogId, slotId, cs[i].id, full, now, Enviado, token(|notified|))]
    ensures Sending(cs, i + 1, if r.Some? then notified + [cs[i]] else notified,
                    if r.Some? then results + [r.value] else results, first, slotId, full, now, token, logs0, logs', nextLogId')
  {
    RecipientsStep(cs, i);
    if r.Some? {
      NotifyLogsSnoc(notified, cs[i], first, slotId, full, now, token);
      LogsAppendAssoc(logs0, NotifyLogs(notified, first, slotId, full, now, token),
                      [ReminderLog(nextLogId, slotId, cs[i].id, full, now, Enviado, token(|notified|))]);
      var results' := results + [r.value];
      forall j | 0 <= j < |results'|
        ensures results'[j].Sent? && results'[j].logId == first + j
      {
        if j < |results| {
          assert results'[j] == results[j];
        }
      }
    }
  }

  lemma LogsAppendAssoc(a: seq<ReminderLog>, b: seq<ReminderLog>, c: seq<ReminderLog>)
    ensures (a + b) + c == a + (b + c)
  {
  }

  /** Every query row is a stored user, so the `id_usuario` foreign key always holds. */
  lemma {:induction false} LinkedCaregiversExist(links: seq<Link>, users: seq<User>, pacienteId: int)
    ensures forall c | c in LinkedCaregivers(links, users, pacienteId) :: FindUser(users, c.id).Some?
  {
    if links != [] {
      LinkedCaregiversExist(links[..|links| - 1], users, pacienteId);
      forall c | c in LinkedCaregivers(links, users, pacienteId)
        ensures FindUser(users, c.id).Some?
      {
        if c !in LinkedCaregivers(links[..|links| - 1], users, pacienteId) {
          FoundUserFound(users, links[|links| - 1].caregiverId);
        }
      }
    }
  }

  /** A user found by key is found again by its own key (the first row with that key). */
  lemma FoundUserFound(users: seq<User>, id: int)
    requires FindUser(users, id).Some?
    ensures FindUser(users, FindUser(users, id).value.id).Some?
  {
  }

  /** A notified caregiver of the corrected helper owns exactly the row logged for them. */
  lemma {:induction false} NotifyLogsPerRecipient(rs: seq<User>, firstId: int, slotId: int, mensaje: string, now: nat,
                                                  token: nat -> string, i: nat)
    requires i < |rs|
    ensures NotifyLogs(rs, firstId, slotId, mensaje, now, token)[i] ==
            ReminderLog(firstId + i, slotId, rs[i].id, mensaje, now, Enviado, token(i))
  {
    var n := |rs| - 1;
    if i < n {
      NotifyLogsPerRecipient(rs[..n], firstId, slotId, mensaje, now, token, i);
    }
  }

  /** With recipients of distinct ids, each recipient owns exactly one row. */
  lemma OneLogPerRecipient(rs: seq<User>, firstId: int, slotId: int, mensaje: string, now: nat,
                           token: nat -> string, i: nat)
    requires UserIdsUnique(rs) && i < |rs|
    ensures var logs := NotifyLogs(rs, firstId, slotId, mensaje, now, token);
            forall k | 0 <= k < |logs| :: logs[k].userId == rs[i].id <==> k == i
  {
    var logs := NotifyLogs(rs, firstId, slotId, mensaje, now, token);
    forall k | 0 <= k < |logs|
      ensures logs[k].userId == rs[i].id <==> k == i
    {
      NotifyLogsPerRecipient(rs, firstId, slotId, mensaje, now, token, k);
    }
  }
}
