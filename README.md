# Firebase-to-MQTT automation dispatcher, modelled in Dafny

The service watches the Firestore collection group `automation`. Each document
there describes a scheduled smart-device command: an MQTT topic (`path`), the
desired state (`turnOn`), a scheduled time `clock` ("HH:mm"), an IANA
`timezone`, the ISO weekdays `days` it may fire on, and `isRepeat`. A document
is evaluated in two cases: whenever it is added or modified (the `onSnapshot`
listener), and once a minute for every document (the sweep that `setInterval`
starts on the tick whose seconds read "00"). A due document causes a retained
publish of "1" or "0" to its topic. It is then deleted when `isRepeat === false`.

The model has five modules:

- `Wrappers` (`wrappers.dfy`): `Option`.
- `JsValues` (`js_values.dfy`): the loosely typed field values the code
  inspects. It covers JavaScript truthiness (for `turnOn`), strict `=== false`
  (for `isRepeat`) and `String.prototype.includes`.
- `TimeMatch` (`time_match.dfy`): one evaluation `Instant`, `isMatchingTime`,
  the weekday string, and the `"ss" === "00"` gate.
- `Automation` (`automation.dfy`): the document record and the pure decision
  `Decide` (skip / fire / TypeError), written once for both entry points. It
  also holds the pure specification of a pass over a sequence of documents:
  which messages it publishes, which ids it deletes, and where a TypeError
  stops it.
- `Dispatcher` (`dispatcher.dfy`): the class `AutomationService`. Its fields
  are the store (`map<Id, Record>`) and the outbox of publish requests
  (`seq<Message>`). Its methods are `HandleAutomationSnapshot`,
  `HandleAllAutomations` (a loop over the query result), `OnSnapshot` (a loop
  over a change batch) and `Tick`. Each method's `ensures` ties the new state
  to the pure specification of the old one.

Inputs that stand in for collaborators:

- The current instant is an `Instant`. It holds the UTC date, the seconds
  field, and the wall-clock reading (date, hour, minute, ISO weekday) in every
  zone. The moment-timezone conversion is therefore an input.
- The answer of the collection-group query is a `QueryResult`: either failed,
  or an ordered sequence of documents.
- A change batch is a sequence of `Change` values (kind, document path,
  document).
- `client.publish` is an append to the outbox. `ref.delete()` is a removal
  from the store.

Four places where the code does less than one might expect. The model follows the code in each:

- One would expect no delete after a failed publish. This code issues the
  delete right after `client.publish`, whatever the publish callback later
  reports (index.js:44-62). In the model the delete decision depends only on
  the document.
- One would expect a document to fire at most once per minute. The code keeps
  no per-record claim, so a due repeating document fired by a change event is
  published again by a sweep in the same minute
  (`RepeatingRecordFiresOnBothPaths`).
- One would expect weekday identifiers of either type to match. This code
  compares against the weekday as a string (index.js:38), so a `days` array of
  numbers never matches (`NumericDaysNeverFire`).
- One would expect any falsy `isRepeat` to mean "do not repeat". This code
  tests `=== false` (index.js:53), so an absent `isRepeat` keeps the document.

A TypeError can come from two places. A `timezone` that is absent, null, empty
or not a string makes `moment().tz(timezone)` return undefined (a falsy
argument turns `tz` into a getter) or throw (a truthy non-string), so
`isMatchingTime` throws on every evaluation (index.js:27-30). And when the time
matches but `days` has no `includes` method (it is absent, null or a number),
the call at index.js:38 throws. The two paths do not handle a TypeError the
same way. In the sweep this rejects the promise: the `catch`
logs it, and the documents after that one are not evaluated. In the listener
the exception leaves the callback, and the rest of the batch is not handled.

## Model

| member | source | states |
|---|---|---|
| `TimeMatch.IsMatchingTime` | index.js:26-31 | Corrected `isMatchingTime`: with the schedule placed on the zone-local date of now, it is true iff the clock parsed and the zone's wall-clock hour and minute equal the schedule's; an unparseable clock never matches |
| `TimeMatch.IsMatchingTimeAsWritten` | index.js:26-31 | As written: true iff the corrected match holds and the zone-local date equals the UTC date, because the date of the parsed "HH:mm" comes from the current UTC date |
| `TimeMatch.MatchingTimeIgnoresSeconds` | index.js:30 | Changing only the seconds of the instant changes neither form of the match (`isSame` at minute granularity) |
| `TimeMatch.AsWrittenMissesMorningEastOfUtc` | index.js:28-30 | At 06:30 on 1 May in Asia/Jakarta (23:30 on 30 April in UTC), a "06:30" schedule does not match as written, though it matches as intended |
| `TimeMatch.WeekdayString` | index.js:38 | `isoWeekday().toString()` is one character '1'..'7' whose digit value is the weekday |
| `TimeMatch.WeekdayStringInjective` | index.js:38 | Two weekdays render to the same string iff they are the same weekday |
| `TimeMatch.FormatSeconds` | index.js:130 | `format("ss")` is two characters whose decimal value is the seconds field |
| `TimeMatch.ShouldSweep` | index.js:129-133 | The tick gate is open iff the seconds field is 0 |
| `JsValues.Truthy` | index.js:41 | A value is truthy iff it is none of undefined, null, `false`, 0 and "" |
| `JsValues.IsStrictlyFalse` | index.js:53 | `=== false` holds iff the value is a boolean and falsy, that is, `false` itself |
| `JsValues.Contains` | index.js:38 | `String.prototype.includes` holds iff the needle occurs at some index of the text as a contiguous part |
| `JsValues.StrictlyFalseIsNarrowerThanFalsy` | index.js:53 | `=== false` implies falsiness; every falsy value other than `false` fails `=== false` |
| `JsValues.ContainsOneChar` | index.js:38 | For a one-character needle, `String.prototype.includes` is membership of that character |
| `Automation.DaysInclude` | index.js:38 | `days.includes(s)` throws iff `days` has no `includes`; on an array it is true iff some element is the string `s`; on a string iff `s` occurs in it |
| `Automation.ShouldDelete` | index.js:53 | The delete test holds iff `isRepeat` is the boolean `false`, and then `isRepeat` is falsy |
| `Automation.ZoneName` | index.js:27 | A zone is usable iff `timezone` is a non-empty string, and then it is that string; no falsy `timezone` is usable |
| `Automation.UnusableTimezoneAlwaysFaults` | index.js:27-30 | A document whose `timezone` is falsy or not a string throws on every evaluation, whatever the clock and the time |
| `Automation.Payload` | index.js:41 | The payload is "1" iff `turnOn` is truthy and "0" iff it is not |
| `Automation.Decide` | index.js:27-62 | A document without a usable `timezone` faults; with one, a document whose time does not match is skipped; it faults iff the zone is unusable, or the time matches and `days` has no `includes`; a fired document has a matching time, publishes to `path` with `retain` set and payload "1" iff `turnOn` is truthy ("0" iff not), and is marked for delete iff `isRepeat` is exactly `false` |
| `Automation.FiresIffTimeAndWeekdayMatch` | index.js:36-39 | A document fires iff its zone is usable, the time matches in that zone, and that zone's ISO weekday digit is a string element of a `days` array, or a character of a `days` string |
| `Automation.NumericDaysNeverFire` | index.js:38 | A `days` array holding only numbers never fires |
| `Automation.OnlyStrictFalseDeletes` | index.js:53 | A document is deleted iff it fires and `isRepeat` is `false`; `true`, absent, null, 0 and "" keep it |
| `Automation.Step` | index.js:36-62 | Evaluating one document keeps the old outbox as a prefix and adds at most one message; it removes no id other than the evaluated one and adds none |
| `Automation.NotFiredChangesNothing` | index.js:36-39 | A document that does not fire leaves store and outbox unchanged |
| `Automation.FiredStep` | index.js:40-62 | A fired document appends exactly its retained message; it leaves the store iff `isRepeat === false`; every other document is kept unchanged |
| `Automation.Evaluated` | index.js:73-78 | The number of documents a pass evaluates is the index of the first TypeError, or all of them |
| `Automation.DueMessages` | index.js:73-89 | A pass publishes at most one message per document |
| `Automation.DueMessagesMembership` | index.js:73-89 | A message is published by a pass iff some document of it fires with that message |
| `Automation.DeletedIds` | index.js:92-101 | A pass deletes at most one id per document |
| `Automation.DeletedIdsMembership` | index.js:92-101 | An id is deleted by a pass iff some document with that id fires with `isRepeat === false` |
| `Automation.DueMessagesAppend` | index.js:73-103 | Evaluating two runs of documents back to back publishes the first run's messages followed by the second's |
| `Automation.ThroughSnoc` | index.js:73-103 | Evaluating one more document is one more single-document step |
| `Automation.EvaluatedAt` | index.js:73-107 | A pass stops exactly at the index where no earlier document faults and that one does |
| `Automation.SweepOutcomeOf` | index.js:70-107 | A sweep reports a query error iff the query failed; an abort names a document that threw; completion means no document threw |
| `Automation.FailedQueryChangesNothing` | index.js:105-107 | A failed query evaluates nothing and changes nothing |
| `Automation.SweepOfWholeStore` | index.js:67-107 | A sweep over the whole store without a TypeError publishes the message of every due document; afterwards the store holds exactly the documents that were not due one-shot ones, unchanged |
| `Automation.SecondSweepDeletesNothing` | index.js:92-101 | A second sweep in the same minute over what the first left deletes nothing |
| `Automation.RepeatingRecordFiresOnBothPaths` | index.js:121-133 | A due repeating document fired by a change event is published again by a sweep in the same minute: there is no once-per-minute guard |
| `Automation.DispatchesChange` | index.js:123 | A change is dispatched iff it is not a removal |
| `Automation.Dispatched` | index.js:122-126 | A batch dispatches at most as many documents as it has changes |
| `Automation.DispatchedMembership` | index.js:122-126 | A document is dispatched iff an "added" or "modified" change of the batch carries it |
| `Automation.DispatchedPrefix` | index.js:122-126 | The documents dispatched from a prefix of a batch are a prefix of those of the whole batch (in order) |
| `Automation.RemovalsDispatchNothing` | index.js:123 | A batch of removals dispatches nothing |
| `Automation.BatchAborted` | index.js:122-126 | A batch stops early iff some dispatched document throws |
| `Dispatcher.AutomationService.Publish` | index.js:44-50 | A publish appends its request to the outbox and leaves the store alone |
| `Dispatcher.AutomationService.DeleteDocument` | index.js:54-61 | A delete removes the id from the store (a no-op when absent) and adds nothing to the outbox |
| `Dispatcher.AutomationService.HandleAutomationSnapshot` | index.js:34-64 | Faults iff `Decide` faults, and then changes nothing; the new store and outbox are one `Step` of the old ones: the due document's message is appended and the document removed iff it is a one-shot one, whatever the publish outcome |
| `Dispatcher.AutomationService.HandleAllAutomations` | index.js:67-108 | The outcome is `SweepOutcomeOf`; the new state is the old one after evaluating the queried documents in order up to the first TypeError: their due messages in query order appended, their due one-shot ids removed; a failed query changes nothing |
| `Dispatcher.AutomationService.HandleChange` | index.js:122-126 | A removal changes nothing and never faults; an added or modified document is one `Step` of the state, and the change faults iff its document does, in which case nothing changes |
| `Dispatcher.AutomationService.OnSnapshot` | index.js:121-127 | Removals are skipped; the added and modified documents are evaluated in batch order up to the first TypeError, with the same effect as a pass over them; reports whether a TypeError ended the batch |
| `Dispatcher.AutomationService.Tick` | index.js:129-133 | Sweeps iff the seconds field is 0, with the sweep's outcome and effect; any other tick changes nothing |

## Findings

| source | as written | input that shows it | evidently intended | confidence | as-written member | corrected member |
|---|---|---|---|---|---|---|
| index.js:28 | `moment.tz(clock, "HH:mm", zone)` parses through `moment.utc`, so the date it fills in is today's UTC date; the scheduled moment lands on the UTC date, not the zone-local one, and `isSame` fails whenever the two dates differ | zone Asia/Jakarta (UTC+7), local time 06:30 on Wednesday 1 May 2024 (23:30 UTC on 30 April), clock "06:30": it never matches, so early-morning automations east of UTC and late-evening ones west of UTC never fire | the schedule time on the zone-local date of now | medium: rests on moment-timezone's date defaulting, which is not part of this model; not executed | `TimeMatch.AsWrittenMissesMorningEastOfUtc` | `TimeMatch.IsMatchingTime` |

The rest of the model uses the corrected `IsMatchingTime`. By
`IsMatchingTimeAsWritten`'s contract, the two agree on every instant whose
zone-local date equals its UTC date.

## Left out

- Firebase credentials, the `PORT` read and app bootstrap (index.js:1-24): environment and library setup.
- MQTT client construction and the connect, error, close and message listeners (index.js:110-117, index.js:135-155): network I/O and logging only.
- `console.log` and `console.error` output, including the publish callback's logging of delivery success or failure.
- The moment-timezone zone conversion. This covers tz database lookups, unknown zone names (`Automation.ZoneName` treats every non-empty string as a usable zone) and DST: on a spring-forward day the library moves a missing wall time such as 02:30 forward, and on a fall-back day it picks one of two readings. The `Instant` gives each zone's wall-clock reading as an input instead.
- Lenient "HH:mm" parsing. `clock` is either a well-formed hour and minute or `None`, and `None` stands for a string moment cannot parse (an invalid moment never matches).
- The source calls `moment()` afresh for each check and each document. Each evaluation (one document, one batch or one sweep) uses a single `Instant`, so a minute rolling over during a sweep is not modelled.
- Asynchrony and concurrency. The query, publish and delete are promises or callbacks, and the listener races the sweep. Here publish and delete take effect at once, in program order. `SecondSweepDeletesNothing` therefore relies on deletes applied at once; with deletes still in flight, a one-shot document may be read again and fire twice.
- Timer drift of the one-second `setInterval`: a minute whose "00" tick is skipped, or whose "00" second sees two ticks, is not modelled. `Tick` takes each tick as given.
- `Dispatcher.AutomationService.HandleAllAutomations`: the query result is a parameter, so the model does not force it to be the store's current contents. `Automation.SweepOfWholeStore` states the whole-store property under `Enumerates`.
- Field values of types the code does not inspect: `path` is a string, and fractional and NaN numbers are not modelled. For `days`, a value without `includes` is `NoIncludes`, whatever kind of value it is.
- What the process does after a TypeError escapes the `onSnapshot` listener is not modelled. Only the batch ending is.
