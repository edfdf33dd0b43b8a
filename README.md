# MediRecord reminder pipeline in Dafny

MediRecord sends medication reminders over WhatsApp. This project models the
pipeline behind the reminders and proves properties of the model:

- **schedule_parser.dfy** (`ScheduleParser`) models the text-to-times parser
  `generarHorariosDesdeInstrucciones`. It turns dosing instructions such as
  "cada 8 horas" or "8am y 8pm" into a list of daily "HH:MM" times. Three
  rules are tried in order, the first that matches wins:
  - an interval phrase, looked up in a table or expanded by a loop;
  - every clock time in the text;
  - Spanish keyword heuristics.

  The same file holds the page script's `convertirHora12Horas`.
- **php_arrays.dfy** (`PhpArrays`) models the parser's final steps:
  `array_unique`, `sort` in `strcmp` order, and `array_slice` to six.
- **text.dfy** (`Text`) models the PHP string primitives those rely on.
- **simulation.dfy** (`Simulation`) models the session-backed simulator as
  a class `SessionDb`. The class holds the patients, the reminder list and
  the confirmation list. Its methods are the actions that change them:
  - the cron tick, which appends reminders and dedups them per patient,
    medication name and day;
  - the manual send;
  - the confirmation;
  - the statistics.
- **store.dfy** (`Store`) models the MySQL tables as a class `Database`, with
  its inserts and updates as methods. Its invariant `Valid` holds the unique
  primary keys, the AUTO_INCREMENT counters and the
  `UNIQUE KEY unique_vinculacion` of setup_database.php:104.
- **dispatcher.dfy** (`Dispatcher`) models the production cron
  `enviar_recordatorios.php`. The query selects the due slots. The loop then
  logs each slot, tries to send, and records a provisional intake when the
  send succeeded. The same file holds the phone formatter `formatearNumero`.
- **webhook.dfy** (`Webhook`) models the WhatsApp webhook: the handshake, the
  confirmation words, the lookup of the newest pending reminder for the
  sender, and the two row updates.
- **notifier.dfy** (`Notifier`) models two functions of config.php:
  - `enviarWhatsApp`: phone cleaning, the message prefix, the log insert and
    its failure path;
  - `notificarConfirmacionCuidador`: the fan-out to caregivers.
- **next_dose.dfy** (`NextDose`) models `getNextMedication`.
- **grouping.dfy** (`Grouping`) models how medications.php folds joined rows
  into one group per medication.

Outside inputs become parameters:

| source input | in the model |
|---|---|
| `date()` | a `Clock`, or a timestamp `now` in seconds |
| the WhatsApp transport of the cron | an oracle `delivered(k)` for the k-th send of a run |
| `random_bytes` confirmation tokens | a function `token(k)` |
| message delivery from the webhook and the notifier | returned values of type `Outgoing` |

For an interval N outside the table one might expect ⌊24/N⌋ times. The loop
`for ($i = 0; $i < 24 / N; $i++)` runs ceil(24/N) times, so "5 horas" gives
five times, ending at 20:00. `HoursFromCount`,
`HoursFromLength` and `FiveHourInterval` state this.

## Model

| member | source | states |
|---|---|---|
| ScheduleParser.Schedule | add_medication.php:20-71 | the whole parser as a definition: lower-case the text, apply the interval rule, else the clock-time rule, else the keyword chain, then `array_unique`, `sort` and the first six; an interval of 0 is the division-by-zero failure |
| ScheduleParser.GenerateSchedule | add_medication.php:20-71 | the parser's result is the specification `Schedule` of the text; any result has at most six entries in strictly ascending `strcmp` order |
| ScheduleParser.DefaultHours | add_medication.php:34-40 | the default loop appends "%02d:00" of 0, n, 2n, ... for as long as i·n < 24, which is exactly `HoursFrom(0, n)` |
| ScheduleParser.CollectClockTimes | add_medication.php:44-53 | the foreach over the clock-time matches yields the 24-hour text of every match, in match order |
| ScheduleParser.IntervalFromSpec | add_medication.php:24-25 | the interval scan returns the number of the leftmost position where the interval pattern (digits, optional spaces, then "hora", "hr" or "h") matches; it returns nothing exactly when no position matches |
| ScheduleParser.NoHourLetterNoInterval | add_medication.php:24 | a text without an 'h' never takes the interval rule |
| ScheduleParser.NoDigitNoInterval | add_medication.php:24 | a text without a digit never takes the interval rule |
| ScheduleParser.IntervalTables | add_medication.php:28-33 | intervals 24, 12, 8, 6 and 4 give their fixed lists in sorted order: ["08:00"], ["08:00","20:00"], ["00:00","08:00","16:00"], ["02:00","08:00","14:00","20:00"], ["00:00","04:00","08:00","12:00","16:00","20:00"] |
| ScheduleParser.HoursFromCount | add_medication.php:35-39 | the loop emits the least count c with c·n ≥ 24, i.e. ceil(24/n) |
| ScheduleParser.HoursFromLength | add_medication.php:35-36 | the loop test i·n < 24 holds exactly for the indices of the emitted list |
| ScheduleParser.HoursFromEntry | add_medication.php:37-38 | entry i of the loop's list is "%02d:00" of i·n, an hour below 24 |
| ScheduleParser.HoursFromStrict | add_medication.php:36-39 | the loop's list is strictly ascending |
| ScheduleParser.DefaultInterval | add_medication.php:34-40 | any other positive interval gives the first six of the loop's list |
| ScheduleParser.DefaultIntervalEntries | add_medication.php:34-40 | each entry i of such a schedule is "%02d:00" of i·n with i·n < 24 |
| ScheduleParser.FiveHourInterval | add_medication.php:34-40 | "5 horas" gives ["00:00","05:00","10:00","15:00","20:00"] |
| ScheduleParser.ScheduleFailsOnlyOnZero | add_medication.php:35 | the parser fails (division by zero) exactly when the interval phrase carries the number 0 |
| ScheduleParser.KeywordsOnlyWithoutDigits | add_medication.php:24-55 | the keyword rules are reached exactly when the lower-cased text holds no digit |
| ScheduleParser.ClockMatchesFromNonEmpty | add_medication.php:43 | `preg_match_all` finds a clock time exactly when the text has a digit |
| ScheduleParser.MatchClockAt | add_medication.php:43 | a match consumes at least one character, and its hour and minutes have at most two digits |
| ScheduleParser.KeywordSchedule | add_medication.php:55-70 | on a text whose lower-cased form holds no digit, the result is the post-processed list of the keyword rules |
| ScheduleParser.MorningAndNightRule | add_medication.php:55-57 | a digit-free text with "mañana" and "noche" gives ["08:00","20:00"] |
| ScheduleParser.BreakfastAndDinnerRule | add_medication.php:55-60 | a digit-free text with "desayuno" and "cena" that the first branch does not take (not both "mañana" and "noche") gives ["08:00","20:00"] |
| ScheduleParser.OnceADayRule | add_medication.php:55-66 | a digit-free text with "una vez" or "al día" that neither earlier branch takes (not both "mañana" and "noche", not both "desayuno" and "cena") gives ["08:00"] |
| ScheduleParser.NoRuleRule | add_medication.php:55-70 | a digit-free text that no keyword branch takes (not both "mañana" and "noche", not both "desayuno" and "cena", neither "una vez" nor "al día") gives the empty list |
| ScheduleParser.MorningAndNight | add_medication.php:55-57 | "mañana y noche" gives ["08:00","20:00"] |
| ScheduleParser.BreakfastAndDinner | add_medication.php:58-60 | "desayuno y cena" gives ["08:00","20:00"] |
| ScheduleParser.OnceADay | add_medication.php:64-66 | "una vez al día" gives ["08:00"] |
| ScheduleParser.NoKeywordNoTimes | add_medication.php:55-70 | "según indicación" gives the empty list |
| ScheduleParser.ClockTimeMeaning | add_medication.php:45-52 | a match prints as a clock string that reads back as its 24-hour hour (pm below 12 adds 12, 12 am is 0, no range check) and its minutes |
| ScheduleParser.ThreeMealBranchUnreachable | add_medication.php:58-63 | the three-meal keyword branch can never produce its list, because the branch before it catches its condition |
| ScheduleParser.ScheduleShape | add_medication.php:68-70 | every result is at most six distinct "dd:dd" strings in ascending order |
| ScheduleParser.ClockTextReads | add_medication.php:52 | `sprintf('%02d:%02d')` of numbers below 100 is a clock string that reads back as those numbers |
| ScheduleParser.ClockTextOfString | add_medication.php:52 | every clock string is the printing of the numbers it reads as |
| ScheduleParser.ClockOrder | add_medication.php:69 | `sort` on clock strings orders them by hour, then minute |
| ScheduleParser.LowerTo12Hour | add_medication.php:330-339 | the lower-cased 12-hour text is "h:MM am/pm" with no 'h' in it |
| ScheduleParser.SpokenTimeMatch | add_medication.php:43-53 | "h:MM am" or "h:MM pm" is read as exactly one clock-time match with that hour, minutes and period |
| ScheduleParser.To12HourRoundTrip | add_medication.php:330-339 | feeding the 12-hour form of any time of day back to the parser gives exactly that time |
| ScheduleParser.To12Hour | add_medication.php:330-339 | `convertirHora12Horas` as a definition: hours above 12 lose 12, hour 0 becomes 12, the minutes are kept, and "PM" is added from 12 on, "AM" before |
| PhpArrays.Unique | add_medication.php:68 | `array_unique` keeps every value once and only the input's values |
| PhpArrays.UniqueOfDistinct | add_medication.php:68 | on a list without repetitions `array_unique` changes nothing |
| PhpArrays.Sort | add_medication.php:69 | `sort` returns an ascending permutation of its input |
| PhpArrays.SortedUnique | add_medication.php:69 | there is only one ascending arrangement of a multiset of strings |
| PhpArrays.SortUniqueStrict | add_medication.php:68-69 | deduplicating then sorting gives a strictly ascending list of exactly the input's values |
| PhpArrays.Take | add_medication.php:70 | `array_slice($a, 0, n)` is the prefix of length min(n, length) |
| PhpArrays.NormalizeSpec | add_medication.php:68-70 | the post-processing returns at most six values, strictly ascending, all from the input; a value left out means six smaller values were kept |
| PhpArrays.NormalizeSameValues | add_medication.php:68-70 | the post-processing depends only on which values occur |
| PhpArrays.NormalizeOfStrict | add_medication.php:68-70 | a strictly ascending list is only cut to six |
| Text.Trim | webhook_confirmaciones.php:20 | `trim` returns a slice of the input with only whitespace cut from its two ends, and neither end of the result is whitespace |
| Text.TrimOfTrimmed | webhook_confirmaciones.php:20 | a text with no whitespace at either end is left unchanged |
| Text.LowerIdempotent | webhook_confirmaciones.php:20 | `strtolower` applied twice equals applied once |
| Text.DigitsOnly | enviar_recordatorios.php:129 | removing the non-digits leaves only digits and never lengthens the text |
| Text.LessTotal | add_medication.php:69 | `strcmp` order is total on distinct strings |
| Text.LessTransitive | add_medication.php:69 | `strcmp` order is transitive |
| Simulation.SessionDb.constructor | simulacion.php:6-45 | the session starts with the two seed patients and empty reminder and confirmation lists |
| Simulation.SessionDb.RunCron | simulacion.php:87-136 | the tick appends to the reminder list and changes nothing else. It returns exactly the appended reminders. Each is for a medication due at the current "H:i" that had no reminder dated today. Afterwards every due medication has one. A tick with nothing new due appends nothing |
| Simulation.SessionDb.CronPatient | simulacion.php:92-125 | the loop over one patient's medications keeps the tick's invariants and covers all that patient's due medications |
| Simulation.SessionDb.CronMedication | simulacion.php:93-124 | one due medication without a reminder dated today gets exactly one; anything else appends nothing |
| Simulation.SessionDb.AlreadySent | simulacion.php:95-103 | the inner scan answers whether a reminder for that patient and medication name is dated today |
| Simulation.SessionDb.AppendDue | simulacion.php:106-122 | the new reminder has id count+1, estado 'enviado' and confirmado false; earlier reminders are untouched |
| Simulation.SessionDb.SendReminder | simulacion.php:139-170 | an unknown patient fails with no change; a patient without medications also fails with no change; otherwise one reminder for the first medication is appended, with no dedup |
| Simulation.SessionDb.ConfirmIntake | simulacion.php:173-200 | only the first reminder with that id that is not yet confirmed becomes confirmed; one confirmation record is appended; when there is no such reminder, the call fails and nothing changes |
| Simulation.SessionDb.Statistics | simulacion.php:203-218 | the counts cover all reminders, not only today's; confirmed ≤ total; pending = total − confirmed; confirmed equals the number of confirmation records |
| Simulation.SentTodayAppend | simulacion.php:96-103 | after an append, a reminder is dated today exactly when one was before or the appended one is |
| Simulation.CountConfirmed | simulacion.php:207-210 | the confirmed count never exceeds the number of reminders |
| Simulation.CountAppendUnconfirmed | simulacion.php:117-121 | appending an unconfirmed reminder leaves the confirmed count unchanged |
| Simulation.CountConfirmOne | simulacion.php:175-210 | confirming one unconfirmed reminder raises the confirmed count by exactly one |
| Simulation.ConfirmOnce | simulacion.php:175-179 | after a confirmation no open reminder with that id remains, so a second confirmation of the id fails |
| Simulation.IdsUnique | simulacion.php:106 | while the list only grows, ids are unique |
| Simulation.FirstOpen | simulacion.php:175-176 | finds the first reminder with that id and confirmado false, or shows there is none |
| Simulation.FindPatient | simulacion.php:140 | finds the patient stored under that id, or shows there is none |
| Store.Database.InsertLog | enviar_recordatorios.php:55-61 | the new 'enviado' log row gets the next key; every other table is unchanged |
| Store.Database.InsertIntake | enviar_recordatorios.php:67-72 | the new intake row gets the next key; every other table is unchanged |
| Store.Database.SetLogStatus | webhook_confirmaciones.php:44-49 | only that log's estado changes |
| Store.Database.SetIntake | webhook_confirmaciones.php:52-61 | only that intake's estado and timestamp change |
| Store.FindUser | enviar_recordatorios.php:23 | the join finds a stored user with that key, or shows there is none |
| Store.FindMed | enviar_recordatorios.php:22 | the join finds a stored medication with that key, or shows there is none |
| Dispatcher.DueRows | enviar_recordatorios.php:18-31 | the cron SELECT as a definition: one joined row for each active slot due at the current minute with no log dated today |
| Dispatcher.DueRowsSound | enviar_recordatorios.php:18-35 | every selected row comes from a slot that is active, due at the current minute, not logged today, and joined |
| Dispatcher.DueRowsComplete | enviar_recordatorios.php:18-35 | every such slot has a row |
| Dispatcher.DueRowsDistinct | enviar_recordatorios.php:18-35 | no slot appears twice among the rows |
| Dispatcher.DueRowsSelect | enviar_recordatorios.php:18-31 | a slot gets a row if and only if it passes the WHERE clause and both joins |
| Dispatcher.FormatNumber | enviar_recordatorios.php:128-140 | `formatearNumero` as a definition: keep the digits, replace a leading 0 with 52, then put 52 in front unless the number already starts with it |
| Dispatcher.FormatNumberShape | enviar_recordatorios.php:128-140 | `formatearNumero` returns only digits, starting with "52" |
| Dispatcher.FormatNumberCases | enviar_recordatorios.php:131-137 | the four cases: empty becomes "52"; a leading 0 is replaced by 52; a number starting with 52 is kept; any other gets 52 in front |
| Dispatcher.FormatNumberIdempotent | enviar_recordatorios.php:128-140 | formatting twice equals formatting once |
| Dispatcher.ReminderMessage | enviar_recordatorios.php:44-50 | the reminder text as a definition: the fixed lines with the patient, medication, dose, instructions and time filled in |
| Dispatcher.ReminderMessageContents | enviar_recordatorios.php:44-50 | the message names the patient, medication, dose, instructions and scheduled time, and asks for "*SI*" |
| Dispatcher.DeliveredSlots | enviar_recordatorios.php:61-72 | lists exactly the slots whose send succeeded |
| Dispatcher.DispatchRow | enviar_recordatorios.php:41-77 | the log is inserted before the send; the intake row exists only if the send went through |
| Dispatcher.DispatchRows | enviar_recordatorios.php:39-79 | after the loop: one log per row, an 'omitido' intake per delivered row, `$enviados` is the number delivered, one message per row |
| Dispatcher.DispatchStep | enviar_recordatorios.php:39-79 | one pass of the loop keeps the invariant of `DispatchRows` |
| Dispatcher.Dispatch | enviar_recordatorios.php:14-79 | one cron run is the loop over exactly the selected rows; users, medications, slots and links are untouched |
| Dispatcher.RunKeepsOnePerSlotPerDay | enviar_recordatorios.php:26-61 | if at most one log per slot and day existed before, the same holds after a run |
| Dispatcher.LoggedTodayGrows | enviar_recordatorios.php:26-30 | a slot logged today stays logged after more logs are added |
| Dispatcher.RunLogsEverySelectedSlot | enviar_recordatorios.php:39-61 | after a run every selected slot is logged today, whatever the transport did |
| Dispatcher.RerunSelectsNothing | enviar_recordatorios.php:26-61 | a second run at any time in the same minute of the same day selects nothing, even after failed sends |
| Dispatcher.IntakesOnlyForDelivered | enviar_recordatorios.php:61-72 | a slot has a provisional intake if and only if its send succeeded |
| Webhook.IsConfirmation | webhook_confirmaciones.php:20-23 | the confirmation test as a definition: `strtolower(trim(text))`, with a missing text read as "", is one of si, sí, yes, ok, listo or tomado |
| Webhook.ConfirmationOfNormalized | webhook_confirmaciones.php:20-23 | trimming and lower-casing a message again does not change whether it is a confirmation |
| Webhook.AcceptsUpperCaseSi | webhook_confirmaciones.php:20-23 | "SI" and " Ok\n" are confirmations |
| Webhook.AccentedSi | webhook_confirmaciones.php:20-23 | "Sí" is accepted but "SÍ" is not: `strtolower` changes only A–Z |
| Webhook.RejectsOtherWords | webhook_confirmaciones.php:20-23 | "sip", "no" and a message without text are not confirmations |
| Webhook.RejectsLongerReply | webhook_confirmaciones.php:23 | the pattern is anchored: "si gracias" is not a confirmation |
| Webhook.LatestPendingIn | webhook_confirmaciones.php:26-39 | returns a pending log ('enviado', sent today, owner's phone equal to the sender) sent no earlier than any other pending log, or none when nothing is pending |
| Webhook.NothingPendingIffZero | webhook_confirmaciones.php:26-41 | the lookup finds nothing exactly when the pending count is 0 |
| Webhook.ConfirmOneLessPending | webhook_confirmaciones.php:44-49 | confirming a pending log lowers the pending count by exactly one |
| Webhook.LatestOpenIntake | webhook_confirmaciones.php:52-60 | finds the last 'omitido' row of the slot dated today, or shows there is none |
| Webhook.LatestOpenIntakeHighestId | webhook_confirmaciones.php:52-60 | with ascending keys, that row has the highest `id_registro` among the open rows |
| Webhook.HandleWebhook | webhook_confirmaciones.php:8-119 | the handshake echoes the challenge and changes nothing. Any other call answers 200 with `{"status":"success"}`. A confirmation with a pending log sets exactly that log to 'confirmado', sets at most the newest open intake of its slot to 'tomado' at `now`, and thanks the sender. In every other case the tables are unchanged |
| Webhook.TargetIsPending | webhook_confirmaciones.php:30-33 | only a log still 'enviado' and sent today is ever confirmed |
| Webhook.ConfirmationDrainsPending | webhook_confirmaciones.php:26-49 | each handled confirmation lowers the sender's pending count by one; with none pending nothing is found |
| Webhook.PlusPhoneNeverMatches | webhook_confirmaciones.php:30 | a phone stored with a leading '+' never matches a digits-only sender |
| Notifier.NormalizePhone | config.php:484-488 | the phone cleaning as a definition: keep the digits, and put 52 in front of exactly ten digits |
| Notifier.PlusTestAlwaysPasses | config.php:484-486 | after the non-digits are stripped, the '+' test always passes |
| Notifier.NormalizePhoneCases | config.php:484-488 | ten digits get "52" in front; any other count is kept as it is |
| Notifier.NormalizePhoneDigits | config.php:484-488 | the cleaned number is all digits and never ten digits long |
| Notifier.NormalizePhoneIdempotent | config.php:484-488 | cleaning twice equals cleaning once |
| Notifier.FullMessageParts | config.php:490 | the stored text is the prefix "MediRecord:", one space, then the message |
| Notifier.SendWhatsApp | config.php:476-517 | disabled sending or an empty phone returns false with no change; an insert MySQL rejects returns a failure with no change; otherwise one 'enviado' row with the prefixed text and the next key |
| Notifier.LinkedCaregiversExactly | config.php:522-529 | the query returns a user exactly when a confirmed link of the patient names them |
| Notifier.LinkedCaregiversExist | config.php:522-527 | every query row is a stored user |
| Notifier.RecipientsFilter | config.php:531-532 | the phone test keeps exactly the rows with a non-empty phone |
| Notifier.RecipientsExactly | config.php:522-545 | a user is messaged exactly when a confirmed link joins them to the patient and they have a phone |
| Notifier.RecipientsStep | config.php:531-532 | the recipients of one more row grow by that row exactly when it has a phone |
| Notifier.LinkedCaregiversUnique | config.php:522-529 | with each (patient, caregiver) pair linked at most once, as `unique_vinculacion` demands, no two query rows share a user id |
| Notifier.RecipientsUnique | config.php:531-532 | the phone filter keeps user ids unique |
| Notifier.RecipientsOfLinksUnique | config.php:522-545 | every caregiver is messaged at most once |
| Notifier.NotifyLogs | config.php:493-498 | one log row per recipient |
| Notifier.NotifyLogsPerRecipient | config.php:493-498 | the i-th row is addressed to the i-th recipient, with key first+i and the confirmed slot |
| Notifier.OneLogPerRecipient | config.php:493-498 | with recipients of distinct ids, each recipient owns exactly one of the corrected helper's rows |
| Notifier.NotifyOne | config.php:531-544 | a caregiver with a phone gets one call, one without gets none; with no slot the call fails and writes nothing |
| Notifier.NotifyCaregivers | config.php:519-546 | as written: every linked caregiver with a phone gets a call, no caregiver twice, every call fails, and no table changes |
| Notifier.SendToEach | config.php:531-545 | as written, the loop over the rows: all calls fail and no table changes |
| Notifier.NotifyCaregiversFixed | config.php:519-546 | corrected: the notified caregivers are exactly those linked with confirmado = 1 and a phone, none twice, and each gets one 'enviado' row, with consecutive keys in row order |
| Notifier.SendToEachWithSlot | config.php:531-545 | corrected loop: one row per recipient, keys in call order, nothing else written |
| Notifier.SendOneWithSlot | config.php:532-543 | one pass of the corrected loop keeps its invariant |
| Notifier.SendingStep | config.php:531-545 | the corrected loop's invariant survives one row, with or without a phone |
| NextDose.NextMedication | config.php:277-311 | `getNextMedication` as a definition: the dose of the earliest slot the viewer's query admits, or nothing |
| NextDose.Earliest | config.php:287-305 | the chosen slot passes the WHERE clause and has the smallest time among those that do; nothing is chosen only when none passes |
| NextDose.NextMedicationSpec | config.php:277-311 | the result is the earliest visible active slot at or after the current minute, nothing exactly when there is none, and it carries a patient name exactly in the caregiver view |
| NextDose.NoWrapAroundMidnight | config.php:284-303 | when every slot lies before the current minute nothing is returned, although tomorrow's first dose is due |
| NextDose.PatientSeesOwnDoses | config.php:287-295 | a patient is only shown one of their own medications |
| NextDose.CaregiverSeesConfirmedPatients | config.php:297-307 | a caregiver is only shown medications of patients whose link is confirmed |
| Grouping.GroupRows | medications.php:13-35 | the groups' key order is the first-occurrence order of the ids; there is one group per id, and each equals its specification `GroupOf` |
| Grouping.AddRow | medications.php:15-34 | a new id opens a group from the row; a truthy time appends one schedule entry; no other group changes |
| Grouping.FoldedStep | medications.php:14-35 | one pass of the loop keeps its invariant |
| Grouping.GroupedStep | medications.php:15-34 | after one more row, every group is complete for the rows seen so far |
| Grouping.FoldStep | medications.php:15-34 | how the key order, the header row and the schedule list each grow by one row |
| Grouping.FirstIdsExactly | medications.php:14-26 | no id is listed twice, and every id of a row is listed |
| Grouping.HeaderRowIsFirst | medications.php:16-25 | a group's fields come from the first row with its id |
| Grouping.HeaderRowNone | medications.php:16 | no header means no row carries the id |
| Grouping.SlotsOfAppend | medications.php:27-33 | schedule lists keep row order |
| Grouping.SlotsOfExactly | medications.php:27-33 | an entry is listed exactly for a row of that id with a truthy time |
| Grouping.SlotsOfCount | medications.php:27-33 | a group has as many entries as its rows with a truthy time |
| Grouping.MedicationWithoutSlots | medications.php:16-34 | a LEFT JOIN row with a NULL time still opens its group, with no entries |
| Grouping.PatientViewHasNoPatientName | medications.php:23 | in the patient view the groups carry no patient name |

## Left out

- HTTP transport: the curl calls of enviar_recordatorios.php:91-126 and webhook_confirmaciones.php:79-115. The cron's send is the oracle `delivered`. The webhook's thank-you and the notifier's sends are returned `Outgoing` values.
- Log files: every `file_put_contents` and `error_log` line. The webhook's `Outcome` stands in for which log line it would write.
- Confirmation tokens: `random_bytes` is a parameter. Their uniqueness is probabilistic in the source and not claimed.
- The clock: `date()`, `NOW()` and `CURDATE()` are parameters. The time zone setting is not modelled.
- Concurrency: the cron and the webhook read, then write, without a transaction. Concurrent runs are not modelled.
- MySQL details:
  - AUTO_INCREMENT gaps after a rejected insert are not modelled; keys are consecutive;
  - collation is not modelled; string comparison in the queries is exact;
  - the order of rows with equal keys is not modelled: the model picks the first-listed row where the source's ORDER BY leaves the choice open (`Webhook.LatestPendingIn`, `NextDose.Earliest`);
  - the cron's SELECT (enviar_recordatorios.php:18-31) has no ORDER BY, so MySQL may return its rows in any order. `Dispatcher.DueRows` lists them in slot-table order. Its lemmas state which rows are selected; the order in which they are sent, and so the order in which `delivered` is consulted, is not modelled.
- Database errors in the cron: a `PDOException` from any query or insert ends the whole run, skipping the remaining rows (the `try` at enviar_recordatorios.php:14, the `catch` at 87-89). The model's inserts never fail, so that path is not shown.
- The JavaScript preview parser `analizarInstrucciones`, add_medication.php:250-298. Only the stored schedule comes from the PHP parser.
- The success rate `tasa_exito` of `obtenerEstadisticas`: it uses float division and `round`.
- The session actions `reiniciar_sistema` and the unknown-action reply of simulacion.php:54-80.
- The HTML of every page.
- The two declarations of `enviarWhatsApp`: config.php:476 and enviar_recordatorios.php:91 declare the same name. The model keeps two separate functions: `Notifier.SendWhatsApp`, and the cron's `delivered` oracle. As written, enviar_recordatorios.php:2 loads config.php with `require_once`, so PHP stops with a fatal redeclaration error before the cron runs. The model describes the cron as if each file's own function were in use.
- The session `user_type` lookup of `getNextMedication`: the viewer kind is a parameter.
- `sort` in place: `PhpArrays.Sort` is a function on values. An in-place array is not modelled, because only the sorted result is observable.
- ScheduleParser.DefaultHours: `24 / $intervalo_horas` is a float in PHP. The loop test is modelled as i·n < 24, which equals `$i < 24 / n` for whole numbers.
- Simulation.SessionDb.SendReminder: a patient without medications throws in the source (`array_rand` on an empty array). The model returns the failure `NoMedication` and changes nothing.
- Simulation.SessionDb.ConfirmIntake: the source compares the posted id loosely (`==`). The model compares whole numbers.
- Simulation.FindPatient: the session array is keyed by patient id. The model finds the patient by its `id` field; in the seed data, key and id agree.

## Findings

| source | as written | input that shows it | evidently intended | confidence | as-written member | corrected member |
|---|---|---|---|---|---|---|
| config.php:537-543 | `notificarConfirmacionCuidador` calls `enviarWhatsApp` with `id_horario` null. `recordatorios_whatsapp.id_horario` is NOT NULL (setup_database.php:110), so every insert throws. The catch turns each call into `success => false`, and no caregiver message is ever logged. | any patient with one confirmed caregiver who has a phone | the caller passes the confirmed slot, and each caregiver with a phone gets one 'enviado' row | not executed | Notifier.NotifyCaregivers | Notifier.NotifyCaregiversFixed |
