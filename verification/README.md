# lingo-async: the event worker, modelled and proved

lingo-async takes events off an SQS queue, credits XP, writes a leaderboard, advances quests and
keeps an event log. This project models that logic in Dafny and proves what it keeps over whole
runs: the callback client with its circuit breaker, the calendar behind the leaderboard's buckets,
the wire format, the batch loop and its handler, the dead-letter replay script, and the two
event-log backends.

The environment is adversarial. What a send meets, what the clock reads, which log calls fail,
which table writes are refused, when a process dies, in what order queues serve and how often they
redeliver are all parameters, and the theorems hold for every choice of them.

| file | what it models |
|---|---|
| `Prelude.dfy`, `Events.dfy`, `Effects.dfy` | `Option`, `Result`; the six message types; the trace of effects on the outside |
| `CircuitBreaking.dfy` | the breaker as a class, with its operation history as a ghost field |
| `CoreClient.dfy` | the retry loop of one callback, on the shared breaker |
| `RetryStorm.dfy` | runs of callbacks: the bound on sends, that it is attained, and what a probe is |
| `Calendar.dfy` | the proleptic Gregorian calendar and ISO week dates |
| `Buckets.dfy`, `Ledger.dfy` | bucket names and expiries; the table the writes go to |
| `Text.dfy`, `Base64.dfy`, `Utf8.dfy`, `JsonText.dfy`, `Messages.dfy` | Python strings, real printers and parsers, and the unwrapping of the kombu envelope |
| `Quests.dfy`, `XpAwarded.dfy` | the quest evaluator and the ordered fan-out of `xp_awarded` |
| `Reprocessing.dfy` | what handling an event again does, and when it does nothing |
| `Handler.dfy`, `EventLog.dfy`, `Mirror.dfy` | the batch loop, what it leaves in SQLite and DynamoDB, and when the two agree |
| `Replay.dfy` | the replay loop and its preview-then-apply sequence |
| `Delivery.dfy`, `Guarantees.dfy`, `RunLogs.dfy` | all of it as one step machine, what every run keeps, and what it leaves in the logs |

`dafny verify dfyconfig.toml` checks the whole project.

## Reading the results

Five things the source says of itself do not hold as stated. Each is settled exactly.

- "Lets exactly one probe through" (app/http/circuit_breaker.py:64): a granted half-open call may
  send several times (`ProbeMaySendTwice`); it sends once exactly when no retry is configured or the
  first reply is not a transient failure (`SingleProbe`); and later calls are refused exactly when
  its first reply was a transient failure and its last was not a success (`RefusedAfterProbe`).
- "Raises `pydantic.ValidationError` on mismatch" (app/contracts/messages.py:218-219): an envelope
  whose body is not base64 of text in the declared encoding raises something else, an unpaired
  surrogate in the body included, and so does a text nested past the recursion limit of the `json`
  module, which app/contracts/messages.py:155 does not catch. Either ends the whole invocation.
  `EscapesExactly` says which texts do; `TruncatedBodyEscapes`, `SurrogateBodyEscapes` and
  `BracketsEscape` name one of each kind.
- "A failed credit costs us a retry, not a double leaderboard/quest"
  (app/handlers/xp_awarded.py:48-51) is about a failed credit. A credit that goes through and is
  followed by a failure is made again: `CreditedAgain` and `CreditedOnce` say exactly when, over any
  deliveries, `CreditsOverRun` over any run, and `CreditedTwice` shows it happen.
- "Handlers already tolerate [reprocessing] via idempotency" (scripts/dlq-replay.py:83-84): there is
  no idempotency key on a credit or a leaderboard write. `ReprocessingHarmless` gives exactly when
  handling an event once more changes nothing, and `AcknowledgedTwice` an event for which it doubles
  the credit and both writes. Over whole runs the damage is bounded by `XpEffectsOverRun` and `BumpsOverRun`.
- "This mirrors its two methods" (app/db/dynamo/events.py:3-5): on redelivery SQLite's primary key
  refuses the second row and DynamoDB's put does not. `MirrorsIffAlike` gives exactly the histories of
  log calls after which the two tables agree, whatever calls were dropped; `MirrorsIffRepeats` reads the
  condition off the deliveries when none was: every message's redeliveries save at the first one's key,
  and the last of them saves the first one's row. A redelivery at another clock reading is not among
  them (`DeliveredLaterParts`, and `RedeliveredOnce` for one such history).

## Model

| member | source | states |
|---|---|---|
| CircuitBreaking.CircuitBreaker.Allow | app/http/circuit_breaker.py:62-73 | refuses only in OPEN within the cooldown, moves OPEN to HALF_OPEN otherwise; the fields stay the state of the extended history |
| CircuitBreaking.CircuitBreaker.RecordSuccess | app/http/circuit_breaker.py:75-79 | clears the run of failures and closes, from any state |
| CircuitBreaking.CircuitBreaker.RecordFailure | app/http/circuit_breaker.py:81-94 | counts one more failure; opens, or re-opens at the new time, when half open or at the threshold |
| CircuitBreaking.HistorySummary | app/http/circuit_breaker.py:47-94 | after every sequence of operations: `failures` is the run of failures since the last success, CLOSED iff that run is below the threshold, `opened_at` the time of the last of them, HALF_OPEN iff some `allow` since came a cooldown later |
| CircuitBreaking.RefusalByHistory | app/http/circuit_breaker.py:62-73 | when `allow` refuses, in terms of the history alone |
| CircuitBreaking.HalfOpenTestIsRedundant | app/http/circuit_breaker.py:85 | in every reachable state the HALF_OPEN test of `record_failure` changes nothing |
| CoreClient.Request | app/http/lingo_core_client.py:76-121 | one `allow`, then exactly the sends up to the first reply that is not a transient failure, at most 1 + max(0, retries); the result is that reply's, the breaker is told of each, and the total sleep is that of the failures between |
| CoreClient.Attempts | app/http/lingo_core_client.py:89-121 | the loop: stops at the first reply that settles the matter, and after the last attempt does not sleep |
| CoreClient.SendOnce | app/http/lingo_core_client.py:93-106 | one attempt: `record_success` on any 2xx even if its body is not JSON, `record_failure` on transient failures only |
| CoreClient.SendCountCorrect | app/http/lingo_core_client.py:90-113 | the number of sends: all but the last met transient failures, and fewer than the maximum only if the last did not |
| CoreClient.SendCountExact | app/http/lingo_core_client.py:90-113 | a number meets that definition iff it is the number of sends |
| CoreClient.RequestEndings | app/http/lingo_core_client.py:93-121 | a permitted request ends with a payload, an error by a status that is neither 429 nor from 500 on, a JSON error after a success, or a network failure, 429 or status from 500 on after exactly the maximum number of sends |
| CoreClient.CallByCode | app/http/lingo_core_client.py:54-121 | a callback by status code: refused only in an open breaker within the cooldown; every reply but the last is a network failure, a 429 or a status from 500 on, and the last is too only if no retry is left; the result is what the last reply says; the breaker is told a failure of exactly these and a success of exactly 200 to 299 |
| CoreClient.BadJsonClosesBreaker | app/http/lingo_core_client.py:96-97 | a reply that is not JSON closes the breaker and still raises |
| CoreClient.SleepBound | app/http/lingo_core_client.py:64-66 | the sleep over n retries is at most n caps and at most base * (2^n - 1) |
| CoreClient.DelayExactly | app/http/lingo_core_client.py:64-66 | the delay is the smaller of base * 2^attempt and the cap |
| CoreClient.DoubledIsProduct | app/http/lingo_core_client.py:65 | the uncapped delay is base * 2^attempt |
| CoreClient.Callback | app/http/lingo_core_client.py:148-198 | each callback is one request on the shared breaker |
| RetryStorm.MeterFollowsRequest | app/http/lingo_core_client.py:83-121 | the measured breaker is the one the requests drive |
| RetryStorm.BurstCorrect | app/http/lingo_core_client.py:91-113 | the breaker after any number of failed sends of one call, in closed form |
| RetryStorm.RetryStormBound | app/http/lingo_core_client.py:83-121 | no retry storm: from a fresh breaker, with every send failing transiently, fewer than the threshold are sent before it opens, and by T after that at most (th - 1) + A * (1 + floor(T / cooldown)) |
| RetryStorm.RetryStormBoundIsTight | app/http/lingo_core_client.py:83-121 | the bound is attained, for every number of cooldowns, whenever A divides th - 1 |
| RetryStorm.ProbeMaySendTwice | app/http/circuit_breaker.py:62-64 | with one retry, a granted half-open call sends twice |
| RetryStorm.SingleProbe | app/http/lingo_core_client.py:83-113 | a granted call sends once iff no retry is configured or the first reply is not a transient failure |
| RetryStorm.RefusedAfterProbe | app/http/circuit_breaker.py:65-73 | after a granted probe, further calls within the cooldown are refused iff its first reply was a transient failure and its last was not a success |
| RetryStorm.StateAfterProbe | app/http/circuit_breaker.py:71-94 | the breaker a probe leaves, by its last reply; a first reply that is a non-transient error leaves it half open |
| Calendar.DaysBeforeYearClosedForm | app/leaderboard/updater.py:67-82 | the closed form of `datetime` counts the days of all earlier years |
| Calendar.OrdinalRoundTrip | app/leaderboard/updater.py:67-82 | a date survives conversion to its ordinal and back |
| Calendar.FromOrdinalCorrect | app/leaderboard/updater.py:67-82 | every ordinal is that of the real date it converts to |
| Calendar.IsoCalendarCorrect | app/leaderboard/updater.py:68-70 | the ISO week of a date is a real week, and the Monday rebuilt from it is the Monday of the date's own week |
| Calendar.ThursdayRule | app/leaderboard/updater.py:68 | the ISO year and week are those of the week's Thursday among the Thursdays of its calendar year (section 4.1.4 of ISO 8601:2004) |
| Calendar.WeeksTile | app/leaderboard/updater.py:68-71 | a day lies in the seven days of a week iff that week is its ISO week |
| Calendar.WeeksAbut | app/leaderboard/updater.py:70-71 | consecutive weeks abut, across 52- and 53-week years |
| Calendar.MonthsTile | app/leaderboard/updater.py:76-81 | a day lies between a month's first and the next month's first iff it is of that month, December and leap years included |
| Calendar.EpochIsThursday | app/leaderboard/updater.py:72 | 1 January 1970 is day 719163 and a Thursday |
| Calendar.IsoWeeks2021 | app/leaderboard/updater.py:68 | around the new year of 2021, the last of 53 weeks and the first of the next year |
| Calendar.IsoWeeks2024 | app/leaderboard/updater.py:68 | the last two days of 2024 are in the first week of 2025 |
| Calendar.IsoWeeks2027 | app/leaderboard/updater.py:68 | around the new year of 2027, after a year of 53 weeks |
| Buckets.WeeklyKeyInjective | app/leaderboard/updater.py:69 | a weekly key names one language and one week, whatever the language contains |
| Buckets.MonthlyKeyInjective | app/leaderboard/updater.py:76 | a monthly key names one language and one month |
| Buckets.SameWeeklyItem | app/leaderboard/updater.py:67-72 | two weekly writes, whatever the space around their languages, hit one item iff what is within that space, the user and the Monday-to-Sunday week are equal |
| Buckets.SameMonthlyItem | app/leaderboard/updater.py:75-82 | two monthly writes, whatever the space around their languages, hit one item iff what is within that space, the user and the calendar month are equal |
| Buckets.StripSplits | app/leaderboard/updater.py:41 | stripping takes away spaces at the two ends and nothing else |
| Buckets.StripOf | app/leaderboard/updater.py:41 | whatever spaces surround a text with none at its ends, stripping gives the text |
| Buckets.PaddedIsDecimal | app/leaderboard/updater.py:69-76 | a padded number is decimal digits with its value |
| Buckets.WeeklyBucketExactly | app/leaderboard/updater.py:67-72 | the key of a weekly bucket digit by digit, and its expiry: 30 days after the last second of the ISO week, in seconds since 1970 |
| Buckets.MonthlyBucketExactly | app/leaderboard/updater.py:75-82 | the key of a monthly bucket digit by digit, and its expiry: 30 days after the last second of the month |
| Buckets.WeeklyNeverMonthly | app/leaderboard/updater.py:69-76 | no weekly key is a monthly key |
| Buckets.ExpiryWindows | app/leaderboard/updater.py:71-82 | expiry minus now lies in [30 d, 37 d - 1 s] for a week and [30 d, 61 d - 1 s] for a month |
| Buckets.WeeklyOverflow | app/leaderboard/updater.py:70-72 | the weekly date arithmetic leaves the `datetime` range exactly in the last weeks of 9999, and never before |
| Buckets.MonthlyOverflow | app/leaderboard/updater.py:77-82 | the monthly arithmetic leaves the range exactly in December 9999 |
| Ledger.LeaderboardTable.AddXp | app/leaderboard/updater.py:85-99 | a write the table takes adds to the item and sets its expiry; one it refuses changes nothing |
| Ledger.LeaderboardTable.UpdateLeaderboard | app/leaderboard/updater.py:35-64 | skips, or weekly then monthly, stopping at the first refusal; the table is the ledger of the writes that took hold |
| Ledger.RankedExactly | app/leaderboard/updater.py:36-44 | an event is for the leaderboard iff it has an amount, its user has not opted out, and its language is more than space |
| Ledger.LeaderboardExactly | app/leaderboard/updater.py:35-64 | what is planned, written, raised and returned, for every event and every answer of the table, with the keys and scopes written out |
| Ledger.ItemsExactly | app/leaderboard/updater.py:85-92 | after any writes an item holds the sum of the amounts written to it and the expiry last written, and there is an item nowhere else |
| Ledger.TtlDetermined | app/leaderboard/updater.py:71-82 | writes to one item agree on its expiry |
| Ledger.Confluence | app/leaderboard/updater.py:85-92 | any order of the same successful writes gives the same ledger |
| Ledger.AttemptsConfluent | app/leaderboard/updater.py:46-58 | the successful writes of any attempts, interleaved in any order, leave the table the attempts leave one after the other |
| Ledger.Conservation | app/leaderboard/updater.py:46-58 | per language and user, weekly total minus monthly total is exactly the amounts of the attempts that failed between the two writes, and never negative |
| Base64.RoundTrip | app/contracts/messages.py:166-204 | strict and lenient decoding undo the encoder on every byte string (section 4 of RFC 4648) |
| Base64.StrictAlphabet | app/contracts/messages.py:204 | what strict decoding accepts is made of the alphabet and padding |
| Base64.StrictExactly | app/contracts/messages.py:204 | strict decoding takes exactly the texts of the alphabet ended by at most two padding characters, a multiple of four characters long |
| Base64.LenientSkips | app/contracts/messages.py:166 | lenient decoding is that of the text without the characters outside the alphabet and padding |
| Base64.DecodeFour | app/contracts/messages.py:166 | any four characters of the alphabet are the three bytes of their 24 bits |
| Base64.GroupBitsExactly | app/contracts/messages.py:166 | any three bytes are four characters of the same 24 bits |
| Utf8.RoundTrip | app/contracts/messages.py:166-204 | decoding undoes encoding on every string |
| Utf8.DecodeExact | app/contracts/messages.py:166-204 | bytes decode to a string iff they are its encoding: nothing overlong, cut short or standing for a surrogate is taken |
| JsonText.RoundTrip | app/contracts/messages.py:154-168 | `loads` undoes `dumps` on every value `loads` can give, strings with unpaired surrogates included |
| JsonText.DumpedLoads | app/contracts/messages.py:153-156 | under any depth limit, loading a printed value gives the value if it nests within the limit and a RecursionError if it does not |
| JsonText.ValueFits | app/contracts/messages.py:154 | what is parsed is well formed, with no surrogate pair left in two halves, and no longer than the text it was read from |
| JsonText.NumberExactly | app/contracts/messages.py:154 | what is taken as a number is the grammar of section 6 of RFC 8259: minus, digits without a leading zero, fraction, exponent |
| JsonText.TooLongExactly | app/contracts/messages.py:154 | a number is refused for its length iff it is an integer with more digits than the limit |
| JsonText.SpaceSamples | app/contracts/messages.py:154 | space around values is skipped, and nothing may follow a value or be missing from it |
| JsonText.LooseSamples | app/contracts/messages.py:154 | a trailing comma, a missing comma and a missing key are refused |
| Messages.WireRoundTrip | app/contracts/messages.py:172-210 | unwrapping the plain envelope, and the base64 of the envelope, both give exactly the payload |
| Messages.WireParsesAsBare | app/contracts/messages.py:213-224 | parsing either wire form of a bare event is parsing the event |
| Messages.ProductionMessage | app/contracts/messages.py:145-224 | an envelope with a base64 body of a payload and the keys `body`, `content-type`, `properties` and `body_encoding`, whatever else it holds and in whatever order, unwraps to the payload, plain or base64 as a whole, and parses as the event if the payload validates |
| Messages.WireTextParses | app/contracts/messages.py:149-187 | the very text of such an envelope, and its base64, parse as the event |
| Messages.BareEventParses | app/contracts/messages.py:191-193 | a bare event parses iff it validates |
| Messages.OtherBodyUnwraps | app/contracts/messages.py:167-168 | an envelope not declared base64 unwraps to its body if that is a string and to its JSON otherwise |
| Messages.LookupIsLast | app/contracts/messages.py:154 | a repeated key has its last value |
| Messages.ZeroSamples | app/contracts/messages.py:165 | numbers that are read as zero and numbers that are not |
| Messages.ObjectOrBase64 | app/contracts/messages.py:195-206 | no text is both a JSON object and strict base64 |
| Messages.OrderIrrelevant | app/contracts/messages.py:197-210 | the two tests of the unwrapping may be made in either order, on any text |
| Messages.BareObjectUnchanged | app/contracts/messages.py:191-193 | a JSON object lacking any one of the three envelope keys is returned unchanged |
| Messages.UnchangedExactly | app/contracts/messages.py:191-210 | a text is returned unchanged iff neither it nor what it is the base64 of is an envelope or nests too deep; no envelope unwraps to the text it started from |
| Messages.PayloadDiffers | app/contracts/messages.py:163-168 | an envelope's payload is never the envelope's own text, and is shorter unless it is a printed array or object |
| Messages.EscapesExactly | app/contracts/messages.py:153-169 | parsing raises something other than a validation error iff the text, or what it is the base64 of, is an envelope whose base64 body does not decode or nests too deep for `json.loads` |
| Messages.DeepTextEscapes | app/contracts/messages.py:153-156 | a printed array, or object that is no envelope, escapes iff it nests deeper than the limit, and so does its base64 |
| Messages.BracketsEscape | app/contracts/messages.py:153-156 | more opening brackets than the limit escape |
| Messages.BadInnerEscapes | app/contracts/messages.py:164-166 | among UTF-8 envelopes in either wire form, those that escape are exactly those whose body is not base64 of UTF-8 |
| Messages.TruncatedBodyEscapes | app/contracts/messages.py:166 | a one-character base64 body raises |
| Messages.SurrogateBodyEscapes | app/contracts/messages.py:166 | a base64 body that is an unpaired surrogate raises |
| Messages.SurrogatePayloadRejected | app/contracts/messages.py:168 | as a plain body it is unwrapped, and then rejected by validation |
| Quests.Evaluator.EvaluateFor | app/quests/evaluator.py:69-131 | one evaluation on the latch and the shared breaker: skip, list, latch on 404, bump |
| Quests.Evaluator.BumpEach | app/quests/evaluator.py:101-131 | the loop over the listing, stopping at the first thing raised |
| Quests.BumpsMatchExactly | app/quests/evaluator.py:102-131 | a normal end has bumped exactly the active quests of the unit, once each, in listing order; a failure at the k-th has bumped and recorded exactly the first k - 1, or bumped the k-th as well when only its reply cannot be read |
| Quests.EvaluationExact | app/quests/evaluator.py:72-131 | an event asks for a listing iff it counts towards quests, its delta is positive and the latch is clear; without a listing nothing is bumped |
| Quests.EvaluationByType | app/quests/evaluator.py:47-131 | by event type: an award lists and advances the active XP quests by its amount, a lesson that is no test-out the lesson quests by 1, reviews the card quests by their count, a friendship the friend quests by 1, once each and in listing order, with the progress and status before and after in the records; a test-out, an ad and a subscription make no call |
| Quests.ActiveInExact | app/quests/evaluator.py:102-107 | the places of the active quests of a unit, increasing |
| Quests.LatchIffListing404 | app/quests/evaluator.py:79-97 | the latch of a process is set iff some event's listing has met a 404 |
| Quests.LatchSilences | app/quests/evaluator.py:79-82 | once set the latch stays set and no event makes another quest request |
| XpAwarded.HandleEvent | app/handlers/xp_awarded.py:36-91 | credit, leaderboard, quests, stopping at the first failure: the effects traced by the calls themselves, in the order they happen, the credit requests sent, and the breaker, table and latch it ends with |
| XpAwarded.CreditUser | app/handlers/xp_awarded.py:39-78 | the credit stage: one callback iff the source is not lesson and the amount positive; its failure, or a reply that is no object, is raised |
| XpAwarded.EffectsArePrefix | app/handlers/xp_awarded.py:39-91 | a delivery's effects are a prefix of credit, weekly, monthly, listing, bumps, and all of them when it returns normally |
| XpAwarded.OutcomesExactly | app/handlers/xp_awarded.py:36-91 | what a delivery returns, entry by entry, or which of its stages it raises from |
| XpAwarded.RedeliveryCounts | app/handlers/xp_awarded.py:42-51 | over any deliveries, killed anywhere: monthly writes <= weekly writes <= credits <= deliveries |
| XpAwarded.AckedIsCredited | app/handlers/xp_awarded.py:42-46 | an acknowledged event of a source other than lesson with a positive amount has been credited at least once |
| XpAwarded.CreditSendsBound | app/http/lingo_core_client.py:90-91 | credit requests sent are at most A per delivery |
| XpAwarded.NeverCredited | app/handlers/xp_awarded.py:33-39 | an event from a lesson, or of amount zero, is never credited |
| Reprocessing.CreditsCounted | app/handlers/xp_awarded.py:42-65 | over any deliveries, an event is credited once for each whose credit call goes through: the breaker lets it pass, the settling reply is a success with JSON, and the process lives to see it |
| Reprocessing.CreditedOnce | app/handlers/xp_awarded.py:42-65 | an acknowledged event is credited exactly once iff no two of its deliveries have their credit call go through |
| Reprocessing.CreditedAgain | app/handlers/xp_awarded.py:48-65 | an event is credited twice or more iff two of its deliveries have their credit call go through |
| Reprocessing.CreditedTwice | app/handlers/xp_awarded.py:48-65 | a concrete event, a weekly write refused after its credit, and a second delivery that acknowledges it: two credits |
| Reprocessing.AckedCounts | app/handlers/xp_awarded.py:36-91 | an acknowledged delivery has credited iff it must, written both buckets iff it is for the leaderboard, and bumped each wanted quest as often as listed |
| Reprocessing.ReprocessingHarmless | scripts/dlq-replay.py:81-84 | handling an event once more and acknowledging it changes nothing iff there is nothing to credit, the leaderboard is off or not for it, and no active quest of its unit is listed |
| Reprocessing.AcknowledgedTwice | scripts/dlq-replay.py:81-84 | a concrete event acknowledged twice is credited twice and written twice to both buckets |
| Reprocessing.BumpsBound | app/quests/evaluator.py:102-131 | over any deliveries, killed anywhere, a quest is bumped at most as often as it is listed |
| Reprocessing.SeenWrites | app/handlers/xp_awarded.py:82-88 | the leaderboard writes among a delivery's effects are the first of those its handler makes, and all of them if it is not killed and gets there |
| Handler.LambdaHandler | app/handler.py:189-267 | the response, or crash, and the events handed to the dispatcher are those of the records alone, with no log, a working log, or one that raises at arbitrary calls; every act is in order, each dispatch between its save and its update; the log has been asked every call and taken those it did not refuse |
| Handler.HandleRecord | app/handler.py:203-262 | one record: saved as unparsed or as its event, dispatched if it parsed, then updated with the outcome, in that order; it fails iff its parse was invalid or its handler raised |
| Handler.Dispatcher.Dispatch | app/handler.py:270-279 | the event is handed over once, and what its handler does comes back |
| Handler.SafeLog | app/handler.py:147-175 | what the log raises is swallowed |
| Handler.ActsExact | app/handler.py:193-262 | the acts of a batch hold exactly its log calls and its dispatches, each in order |
| Handler.DispatchBetween | app/handler.py:234-262 | every dispatch stands just after the save and just before the update of its own record |
| Handler.FailuresExact | app/handler.py:189-267 | the failures are, in order, exactly the ids of the records that were invalid or whose handler raised |
| Handler.DispatchExact | app/handler.py:243-244 | the events handed over are those of exactly the records that parse, once each, by increasing number |
| Handler.ReportedExactly | app/handler.py:181-183 | an id is reported iff some record with it, or with none if it is "<unknown>", did not parse or had its handler raise |
| Handler.WireBatchAsBare | app/handler.py:193-204 | a batch in the wire form has the outcome of the bare batch, and cannot crash, when envelopes and bare objects nest within the limit |
| Replay.Replay | scripts/dlq-replay.py:66-125 | for any receive behaviour: every receive asks for what may still match and at most 10, every received message is counted, matches never exceed the maximum, applying sends then deletes each match in order; short of the maximum it ends only with everything served, if empty means drained |
| Replay.HandleMessages | scripts/dlq-replay.py:103-123 | the inner break never abandons a received message |
| Replay.Accounting | scripts/dlq-replay.py:104-120 | scanned = matched + skipped, moved is matched or 0 by mode, previews are the ids and bodies of the first matches |
| Replay.SelectExact | scripts/dlq-replay.py:62-63 | the messages acted on are exactly those whose body is the filter with something before and after, with their multiplicity |
| Replay.SelectInOrder | scripts/dlq-replay.py:103-108 | and they are acted on in the order they are served |
| Replay.ContainsExact | scripts/dlq-replay.py:62-63 | a body contains the filter iff it is the filter with something before and after |
| Replay.MovesExact | scripts/dlq-replay.py:115-119 | the effects are a send and then a delete of each match, in order |
| Replay.CrashSafe | scripts/dlq-replay.py:79-84 | killed after any effect: everything deleted has been sent, body for body, sends exceed deletes by at most one, and on a normal end the multisets are equal |
| Replay.PassCount | scripts/dlq-replay.py:87-123 | over a single pass, matched = min(max(0, maximum), matching messages) |
| Replay.RunScript | scripts/dlq-replay.py:148-205 | the preview shown is the report on what was received; apply, if asked, matched and confirmed, counts exactly what it sent and deleted; nothing moves otherwise; never more than the maximum; on an unchanged queue exactly what the preview matched |
| EventLog.SqliteRepo.Save | app/db/sqlite/events.py:50-65 | inserts a fresh row; a duplicate id raises and leaves the table as it was |
| EventLog.SqliteRepo.UpdateStatus | app/db/sqlite/events.py:67-79 | sets status, error and outcomes of the row, if there is one |
| EventLog.DynamoRepo.Save | app/db/dynamo/events.py:53-76 | puts the item at its composite key, replacing what is there |
| EventLog.DynamoRepo.UpdateStatus | app/db/dynamo/events.py:78-109 | updates one item the index yields for the id, if any |
| EventLog.SqliteSummary | app/db/sqlite/events.py:50-79 | after any history, the row of an id is its first save with its latest update since |
| EventLog.RedeliverySummary | app/handler.py:147-262 | fed by the batch loop, redeliveries included, SQLite holds one row per delivered id: identity of the first delivery, status of the latest |
| EventLog.RowContents | app/handler.py:193-262 | the row of a message, column by column, from the turns of its first and its last delivery |
| EventLog.KeyInjective | app/db/dynamo/events.py:41-46 | the composite key determines id, user and time, because a timestamp has no `#` |
| EventLog.IsoFormatHashFree | app/handler.py:196 | an ISO timestamp has no `#` |
| EventLog.IsoFormatExactly | app/handler.py:196 | an ISO timestamp, digit by digit |
| EventLog.RunMirrors | app/db/dynamo/events.py:3-5 | on every history that saves no id twice DynamoDB ends as a mirror of SQLite, whichever item the index yields |
| EventLog.BackendsAgree | app/db/dynamo/events.py:3-5 | fed by the batch loop over messages delivered once each, with any calls dropped, the two end with the same rows |
| EventLog.SavedTwice | app/db/dynamo/events.py:63-76 | saving an id again keeps the mirror iff the row it writes is the row that is there |
| EventLog.RedeliveryParts | app/db/sqlite/events.py:19 | between the save and the update of a redelivered, processed message the tables always differ |
| Mirror.MirrorsIffAlike | app/db/dynamo/events.py:3-5 | over every history of log calls, whichever items the index yields, DynamoDB ends as a mirror of SQLite iff each id was saved at one key and its latest save, as updated since, is its first save, as updated since |
| Mirror.MirrorsIffTakenAlike | app/handler.py:147-175 | the same for what the log takes of the batch loop's calls, with redeliveries and any calls refused |
| Mirror.MirrorsIffRepeats | app/db/dynamo/events.py:3-5 | over all histories of the batch loop with every call taken, redeliveries included, DynamoDB ends as a mirror of SQLite iff every message's redeliveries save at the first one's key and the last of them saves the first one's row |
| Mirror.DeliveredLaterParts | app/db/dynamo/events.py:45-46 | a message delivered at two different clock readings leaves the tables apart |
| Mirror.RedeliveredOnce | app/db/dynamo/events.py:45-46 | one such history: a rejected message, redelivered a microsecond later |
| Delivery.MoveIsReplays | scripts/dlq-replay.py:103-120 | the replay steps of the delivery machine are the effects of the replay loop, one by one |
| Delivery.ChosenIsSelect | scripts/dlq-replay.py:103-108 | what a replay step chooses from a receive is what the loop's filter selects |
| Delivery.SafeStep | scripts/dlq-replay.py:81-84 | every step keeps, for each event and each copy, that it is done or some later copy is in a queue |
| Delivery.MovesCoveredStep | scripts/dlq-replay.py:115-119 | between a script's send and its delete a later copy exists, or the event is done; kept with any number of scripts at once |
| Delivery.AcknowledgedIsHandled | app/handler.py:181-183 | a message a response lets go was parsed and its handler returned normally |
| Guarantees.RunInvariant | app/handler.py:189-267 | the whole invariant holds after every run |
| Guarantees.NoMessageIsLost | scripts/dlq-replay.py:4-7 | in every run of publish, receive, crash, finish, redeliver, dead-letter and replay, each published event is in the main queue or the dead-letter queue with its body intact, or done; it is done only if some attempt parsed it and its handler returned; it is dead-lettered only after three receives |
| Guarantees.AttemptsBound | scripts/dlq-replay.py:4 | an event is attempted at most three times for each copy of it put on the main queue |
| Guarantees.CopiesCounted | scripts/dlq-replay.py:116 | those copies are the published message and one for each replay of it |
| Guarantees.XpEffectsOverRun | app/handlers/xp_awarded.py:42-51 | in every run, for an event of a source other than lesson with a positive amount: monthly <= weekly <= credits <= attempts <= 3 * (1 + replays), credit requests at most A per attempt, and done implies credited |
| Guarantees.CreditsOverRun | app/handlers/xp_awarded.py:42-65 | in every run, credits are the attempts whose credit call goes through, and a done event is credited exactly once iff no two are |
| Guarantees.BumpsOverRun | app/quests/evaluator.py:102-131 | in every run, a quest is bumped at most as often as listed, and at most 3 * (1 + replays) times if no listing repeats it |
| Guarantees.ConservationOverRun | app/leaderboard/updater.py:46-58 | in every run, however the writes of overlapping invocations interleave, weekly total minus monthly total is the amounts of the attempts refused or killed between the two writes |
| Guarantees.NeverCreditedOverRun | app/handlers/xp_awarded.py:33-39 | in every run, an event from a lesson, or of amount zero, is never credited |
| RunLogs.LogsOverRun | app/handler.py:147-262 | in every run, with any log calls refused, SQLite holds rows for attempted messages only, for all of them if none is refused, and the two logs mirror each other iff each id's taken saves are alike |
| Guarantees.AttemptsSeeTheEvent | app/handler.py:203-204 | in every run, every attempt on an event finds that event in its copy |

## Left out

- Real-number arithmetic: clocks, cooldowns and delays are `real`; floating-point rounding is not modelled.
- Overlapping calls: a worker process handles one record at a time, and `RetryStormBound` speaks of the sequential calls of one process; a fleet has a breaker per process.
- Retries within one request: whether a failed send reached core is not modelled, so "credited" means that the credit call returned normally.
- Quests.EvaluationExact: takes a listing as a list of objects; a listing of another shape, which raises before any bump, is not modelled.
- JsonText.RoundTrip: numbers keep their lexemes and objects their repeated keys (a lookup takes the last), where `loads` then `dumps` would normalise them. The depth and digit limits and the smallest float are parameters: how deep the interpreter can go at a given call is not computed.
- Messages.UnchangedExactly: charsets other than UTF-8 are a parameter, assumed never to decode to more characters than bytes.
- Field validation: what the contract types accept is a parameter of `ParseEvent`, since it is decided by the validation library; `bytes` and `dict` bodies of `parse_event` are not modelled.
- Ambiguous table failures: a leaderboard write that is refused is taken not to have happened; a write that times out after taking hold is not modelled, nor is the sweep of expired items.
- Replay.Replay: takes `preview_limit` non-negative, as its only callers do, and a finite stream of served messages; against a queue that serves the same messages for ever under a visibility timeout of 0 the pass does not end.
- Replay.RunScript: the prediction assumes two passes that each serve every message of the same queue once.
- RunLogs.LogsOverRun: an attempt's log calls come together, where those of overlapping invocations could interleave; `MirrorsIffAlike` holds of any order.
- Guarantees.NoMessageIsLost: the expiry of messages after a queue's retention period is not modelled; each message kept in a queue is assumed to stay until deleted or moved.
- The index of the events table is taken as up to date; a lagging one would make an update miss its row.
- The expiry of an event-log row, 30 days from the clock reading, is a parameter of the turn, as that reading is.
- SQLite's WAL mode, its commit on disk, and concurrent readers: a call either takes hold or raises.
- Configuration, the boot-time token check, token resolution and the local consumer: policy and wiring.
- The other five handlers: one-line forwards, represented by an arbitrary verdict in the batch loop.
- What lingo-core does with a callback: not in this repository.
