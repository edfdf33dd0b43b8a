/**
 * The WhatsApp webhook (webhook_confirmaciones.php): the subscription
 * handshake, the test of an incoming text against the confirmation words,
 * the lookup of the newest reminder still waiting for an answer from the
 * sender's phone, and the two row updates that record the intake.
 */
module Webhook {
  import opened Wrappers
  import opened Text
  import opened Store
  import opened Dispatcher

  /** The secret Meta echoes back when the webhook is registered. */
  const VerifyToken: string := "MEDIRECORD_WEBHOOK_TOKEN"

  /** The whole-message words `^(si|sí|yes|ok|listo|tomado)$` accepts. */
  const Lexicon: seq<string> := ["si", "sí", "yes", "ok", "listo", "tomado"]

  const Acknowledgement: string := "{\"status\":\"success\"}"

  /** An incoming WhatsApp message; `body` is None for a message without text. */
  datatype Inbound = Inbound(from: string, body: Option<string>)

  /** The query-string handshake fields and the first message of the JSON payload, if any. */
  datatype Request = Request(verifyToken: Option<string>, challenge: string, message: Option<Inbound>)

  datatype Response = Response(status: int, body: string)

  /** What the handler did, in place of its log lines. */
  datatype Outcome = Handshake | NoMessage | Unrecognised | NoPending | Confirmed(logIndex: nat)

  // ---------------------------------------------------------------------------
  // The confirmation words
  // ---------------------------------------------------------------------------

  /** `strtolower(trim(body))`; a missing body reads as "". */
  function Normalized(body: Option<string>): string
  {
    Lower(Trim(if body.Some? then body.value else ""))
  }

  predicate IsConfirmation(body: Option<string>)
  {
    Normalized(body) in Lexicon
  }

  lemma AcceptsUpperCaseSi()
    ensures IsConfirmation(Some("SI"))
    ensures IsConfirmation(Some(" Ok\n"))
  {
    assert Trim("SI") == "SI";
    assert Lower("SI") == "si";
    var s := " Ok\n";
    assert TrimmedStart(s, 2) == 2 && TrimmedStart(s, 1) == 1 && TrimmedStart(s, 0) == 1;
    assert TrimmedEnd(s, 1, 3) == 3 && TrimmedEnd(s, 1, 4) == 3;
    assert Trim(s) == s[1..3] == "Ok";
    assert Lower("Ok") == "ok";
  }

  /** Only A-Z are lower-cased, so "Sí" is accepted but "SÍ" is not. */
  lemma AccentedSi()
    ensures IsConfirmation(Some("Sí"))
    ensures !IsConfirmation(Some("SÍ"))
  {
    assert Trim("Sí") == "Sí";
    assert Lower("Sí") == "sí";
    assert Trim("SÍ") == "SÍ";
    assert Lower("SÍ") == "sÍ";
  }

  /**
   * The test reads a reply the way it normalises it: a reply that is already
   * trimmed and lower-cased is accepted exactly when the original is.
   */
  lemma ConfirmationOfNormalized(body: Option<string>)
    ensures IsConfirmation(Some(Normalized(body))) <==> IsConfirmation(body)
  {
    var t := Trim(if body.Some? then body.value else "");
    var l := Lower(t);
    assert l == [] || (!IsTrimChar(l[0]) && !IsTrimChar(l[|l| - 1]));
    TrimOfTrimmed(l);
    LowerIdempotent(t);
  }

  /** A near-miss, a refusal or a message without text is not a confirmation. */
  lemma RejectsOtherWords()
    ensures !IsConfirmation(Some("sip"))
    ensures !IsConfirmation(Some("no"))
    ensures !IsConfirmation(None)
  {
    RejectsSip();
    RejectsNo();
    RejectsEmpty();
  }

  lemma RejectsSip()
    ensures !IsConfirmation(Some("sip"))
  {
    NotAWord("sip");
  }

  lemma RejectsNo()
    ensures !IsConfirmation(Some("no"))
  {
    NotAWord("no");
  }

  lemma RejectsEmpty()
    ensures !IsConfirmation(None)
  {
    NotAWord("");
  }

  /** A word already trimmed and lower-cased is a confirmation only as itself. */
  lemma NotAWord(w: string)
    requires w == [] || (!IsTrimChar(w[0]) && !IsTrimChar(w[|w| - 1]))
    requires forall i :: 0 <= i < |w| ==> !('A' <= w[i] <= 'Z')
    requires w !in Lexicon
    ensures !IsConfirmation(Some(w)) && (w == [] ==> !IsConfirmation(None))
  {
    TrimOfTrimmed(w);
    assert Lower(w) == w;
  }

  /** The pattern is anchored at both ends: a confirmation word inside a longer reply does not count. */
  lemma RejectsLongerReply()
    ensures !IsConfirmation(Some("si gracias"))
  {
    var s := "si gracias";
    assert TrimmedStart(s, 0) == 0;
    assert TrimmedEnd(s, 0, 10) == 10;
    assert |Normalized(Some(s))| == 10;
  }

  // ---------------------------------------------------------------------------
  // The pending-reminder lookup
  // ---------------------------------------------------------------------------

  /**
   * The WHERE clause: still 'enviado', sent today, and owned by a user whose
   * stored phone is exactly the sender's number.
   */
  predicate IsPending(l: ReminderLog, users: seq<User>, from: string, now: nat)
  {
    l.estado == Enviado && Day(l.sentAt) == Day(now) &&
    FindUser(users, l.userId).Some? && FindUser(users, l.userId).value.telefono == Some(from)
  }

  /** Among the first `n` logs, the pending one sent last (the earliest-listed one on a tie). */
  function LatestPendingIn(logs: seq<ReminderLog>, users: seq<User>, from: string, now: nat, n: nat): (r: Option<nat>)
    requires n <= |logs|
    ensures r.Some? ==> r.value < n && IsPending(logs[r.value], users, from, now)
    ensures r.Some? ==> forall k :: 0 <= k < n && IsPending(logs[k], users, from, now) ==>
                          logs[k].sentAt <= logs[r.value].sentAt
    ensures r.None? ==> forall k :: 0 <= k < n ==> !IsPending(logs[k], users, from, now)
  {
    if n == 0 then None
    else
      var r := LatestPendingIn(logs, users, from, now, n - 1);
      if IsPending(logs[n - 1], users, from, now) && (r.None? || logs[r.value].sentAt < logs[n - 1].sentAt)
      then Some(n - 1)
      else r
  }

  /** `ORDER BY fecha_envio DESC LIMIT 1`: the index of the newest pending reminder. */
  function LatestPending(logs: seq<ReminderLog>, users: seq<User>, from: string, now: nat): Option<nat>
  {
    LatestPendingIn(logs, users, from, now, |logs|)
  }

  /** The number of reminders waiting for an answer from `from` today. */
  function CountPending(logs: seq<ReminderLog>, users: seq<User>, from: string, now: nat): nat
  {
    if logs == [] then 0
    else CountPending(logs[..|logs| - 1], users, from, now) +
         (if IsPending(logs[|logs| - 1], users, from, now) then 1 else 0)
  }

  /** A lookup finds nothing exactly when nothing is pending. */
  lemma {:induction false} NothingPendingIffZero(logs: seq<ReminderLog>, users: seq<User>, from: string, now: nat)
    ensures LatestPending(logs, users, from, now).None? <==> CountPending(logs, users, from, now) == 0
  {
    if logs != [] {
      var init := logs[..|logs| - 1];
      NothingPendingIffZero(init, users, from, now);
      if LatestPending(logs, users, from, now).None? {
        assert !IsPending(logs[|logs| - 1], users, from, now);
        assert forall k :: 0 <= k < |init| ==> init[k] == logs[k];
      } else {
        var r := LatestPending(logs, users, from, now).value;
        if r < |init| {
          assert init[r] == logs[r];
          assert LatestPending(init, users, from, now).Some? by {
            assert forall k :: 0 <= k < |init| ==> init[k] == logs[k];
          }
        }
      }
    }
  }

  /** Confirming one pending reminder leaves exactly one fewer pending. */
  lemma {:induction false} ConfirmOneLessPending(logs: seq<ReminderLog>, users: seq<User>, from: string, now: nat, k: nat)
    requires k < |logs| && IsPending(logs[k], users, from, now)
    ensures CountPending(logs[k := logs[k].(estado := Confirmado)], users, from, now) ==
            CountPending(logs, users, from, now) - 1
  {
    var after := logs[k := logs[k].(estado := Confirmado)];
    var n := |logs| - 1;
    if k == n {
      assert after[..n] == logs[..n];
    } else {
      assert after[..n] == logs[..n][k := logs[k].(estado := Confirmado)];
      ConfirmOneLessPending(logs[..n], users, from, now, k);
    }
  }

  // ---------------------------------------------------------------------------
  // The intake row to mark as taken
  // ---------------------------------------------------------------------------

  /** Recorded today for the slot and still 'omitido'. */
  predicate IsOpenIntake(t: Intake, slotId: int, now: nat)
  {
    t.slotId == slotId && Day(t.at) == Day(now) && t.estado == Missed
  }

  /** `ORDER BY id_registro DESC LIMIT 1` over the open rows: the last one listed. */
  function LatestOpenIntake(intakes: seq<Intake>, slotId: int, now: nat): (r: Option<nat>)
    ensures r.Some? ==> r.value < |intakes| && IsOpenIntake(intakes[r.value], slotId, now)
    ensures r.Some? ==> forall k :: r.value < k < |intakes| ==> !IsOpenIntake(intakes[k], slotId, now)
    ensures r.None? ==> forall k :: 0 <= k < |intakes| ==> !IsOpenIntake(intakes[k], slotId, now)
  {
    if intakes == [] then None
    else if IsOpenIntake(intakes[|intakes| - 1], slotId, now) then Some(|intakes| - 1)
    else LatestOpenIntake(intakes[..|intakes| - 1], slotId, now)
  }

  /** With ascending keys, the last open row listed is the one with the highest `id_registro`. */
  lemma LatestOpenIntakeHighestId(intakes: seq<Intake>, next: int, slotId: int, now: nat)
    requires IntakeIdsBelow(intakes, next)
    requires LatestOpenIntake(intakes, slotId, now).Some?
    ensures var t := LatestOpenIntake(intakes, slotId, now).value;
            forall k :: 0 <= k < |intakes| && IsOpenIntake(intakes[k], slotId, now) ==> intakes[k].id <= intakes[t].id
  {
  }

  // ---------------------------------------------------------------------------
  // The handler
  // ---------------------------------------------------------------------------

  function ThankYou(paciente: string): string
  {
    "✅ Gracias " + paciente + " por confirmar que tomó su medicamento. ¡Que tenga un buen día!"
  }

  /** The handshake fires when the query string carries the right token. */
  predicate IsHandshake(req: Request)
  {
    req.verifyToken == Some(VerifyToken)
  }

  /** The log the request confirms, if it confirms one. */
  function Target(req: Request, logs: seq<ReminderLog>, users: seq<User>, now: nat): Option<nat>
  {
    if IsHandshake(req) || req.message.None? || !IsConfirmation(req.message.value.body) then None
    else LatestPending(logs, users, req.message.value.from, now)
  }

  /**
   * One webhook call at time `now`. The handshake echoes the challenge and
   * touches nothing; any other call answers 200 with the fixed body. A
   * confirmation with a pending reminder marks that log 'confirmado', turns
   * the newest open intake of its slot (if any) into 'tomado' at `now`, and
   * sends a thank-you to the sender.
   */
  method HandleWebhook(db: Database, req: Request, now: nat)
    returns (resp: Response, outcome: Outcome, thanks: Option<Outgoing>)
    requires db.Valid()
    modifies db
    ensures db.Valid()
    ensures resp.status == 200
    ensures IsHandshake(req) <==> outcome == Handshake
    ensures IsHandshake(req) ==> resp.body == req.challenge
    ensures !IsHandshake(req) ==> resp.body == Acknowledgement
    ensures db.nextLogId == old(db.nextLogId) && db.nextIntakeId == old(db.nextIntakeId)
    ensures match Target(req, old(db.logs), old(db.users), now)
            case None =>
              db.State() == old(db.State()) && thanks.None? && !outcome.Confirmed?
            case Some(k) =>
              && k < |old(db.logs)|
              && outcome == Confirmed(k)
              && db.State() == old(db.State()).(
                   logs := old(db.logs)[k := old(db.logs)[k].(estado := Confirmado)],
                   intakes := match LatestOpenIntake(old(db.intakes), old(db.logs)[k].slotId, now)
                              case None => old(db.intakes)
                              case Some(t) => old(db.intakes)[t := old(db.intakes)[t].(estado := Taken, at := now)])
              && FindUser(old(db.users), old(db.logs)[k].userId).Some?
              && thanks == Some(Outgoing(req.message.value.from,
                                         ThankYou(FindUser(old(db.users), old(db.logs)[k].userId).value.nombre)))
  {
    thanks := None;
    if IsHandshake(req) {
      return Response(200, req.challenge), Handshake, None;
    }
    resp := Response(200, Acknowledgement);
    if req.message.None? {
      return resp, NoMessage, None;
    }
    var msg := req.message.value;
    if !IsConfirmation(msg.body) {
      return resp, Unrecognised, None;
    }
    var found := LatestPending(db.logs, db.users, msg.from, now);
    if found.None? {
      return resp, NoPending, None;
    }
    var k := found.value;
    var log := db.logs[k];
    var paciente := FindUser(db.users, log.userId).value.nombre;
    db.SetLogStatus(k, Confirmado);
    var open := LatestOpenIntake(db.intakes, log.slotId, now);
    if open.Some? {
      db.SetIntake(open.value, Taken, now);
    }
    outcome := Confirmed(k);
    thanks := Some(Outgoing(msg.from, ThankYou(paciente)));
  }

  // ---------------------------------------------------------------------------
  // Properties of the handler
  // ---------------------------------------------------------------------------

  /** A confirmation only ever resolves a reminder that was still 'enviado'. */
  lemma TargetIsPending(req: Request, logs: seq<ReminderLog>, users: seq<User>, now: nat)
    requires Target(req, logs, users, now).Some?
    ensures var k := Target(req, logs, users, now).value;
            k < |logs| && logs[k].estado == Enviado && Day(logs[k].sentAt) == Day(now) &&
            IsConfirmation(req.message.value.body)
  {
  }

  /**
   * Each handled confirmation takes the count of pending reminders for the
   * sender down by one; with none pending, the request changes nothing.
   */
  lemma ConfirmationDrainsPending(req: Request, logs: seq<ReminderLog>, users: seq<User>, now: nat)
    requires !IsHandshake(req) && req.message.Some? && IsConfirmation(req.message.value.body)
    ensures var from := req.message.value.from;
            match Target(req, logs, users, now)
            case None => CountPending(logs, users, from, now) == 0
            case Some(k) =>
              CountPending(logs[k := logs[k].(estado := Confirmado)], users, from, now) ==
              CountPending(logs, users, from, now) - 1
  {
    var from := req.message.value.from;
    NothingPendingIffZero(logs, users, from, now);
    if Target(req, logs, users, now).Some? {
      ConfirmOneLessPending(logs, users, from, now, Target(req, logs, users, now).value);
    }
  }

  /**
   * The sender's number is compared with the stored phone as text: a phone
   * saved with a leading '+' never matches the digits-only number WhatsApp
   * reports, so its reminders can never be confirmed by reply.
   */
  lemma PlusPhoneNeverMatches(l: ReminderLog, users: seq<User>, from: string, now: nat)
    requires FindUser(users, l.userId).Some?
    requires var tel := FindUser(users, l.userId).value.telefono; tel.Some? && |tel.value| > 0 && tel.value[0] == '+'
    requires AllDigits(from)
    ensures !IsPending(l, users, from, now)
  {
    if from != [] {
      assert IsDigit(from[0]);
    }
  }
}
