# Log event correlation

A Dafny model of the correlation engine in `LogService`. The service reads a
log file one line at a time. It decodes each line into a `LogEventTO` and drops
any record that is null or has a null `id`, `state` or `timestamp`. It keeps
the remaining records in a map of pending groups keyed by `id`. When a second
record arrives for an `id`, it builds one `LogEvent`, saves it to the
repository and removes the key. A `LogEvent` carries:

- the absolute difference of the two timestamps as its duration;
- an alert flag set when that duration is strictly greater than the configured threshold;
- `type` and `host` taken from the first-arrived record when present, otherwise from the second record.

Files and modules:

- `wrappers.dfy` (`Wrappers`): `Option`, which stands for Java's nullable references.
- `event.dfy` (`Event`): the decoded record `LogEventTO` and its three `@NotNull` constraints, written as a set of violations.
- `domain.dfy` (`Domain`): the output record `LogEvent`.
- `service.dfy` (`Service`): the service's pure parts (`ValidateLogEvent`, `CreateLogEvent`). It also holds the specification of one record (`Observe`) and of a whole run (`ProcessLines`), and the class `LogService`. The class keeps the map as a field and has two imperative methods, `ProcessLogFileEntry` and `ProcessLogFile`. Both are proved against those two functions.
- `service_properties.dfy` (`ServiceProperties`): lemmas about one record, about arrival order and about a whole run.

The repository is modelled by the ghost field `saved`. Each `logEventRepository.save` appends to it.

Input lines are given as already decoded values of type `Line`:

- `Malformed(text)` is a line that the JSON decoder rejects.
- `Decoded(None)` is a line holding the JSON literal `null`.
- `Decoded(Some(r))` is a decoded record.

Two behaviours of the code are worth stating outright:

- A line that does not decode is not skipped. `processLogFileEntry` throws `LogServiceException` for it (LogService.java:82-85). The class comment at LogService.java:34 says that validation failures do not stop the load, but this exception does: it ends `processLogFile`. The map and the saved events stay as the earlier lines left them (`ProcessLines`, `MalformedLineAborts`).
- `type` is optional. The comment on the test at `LogServiceTest.java:71` says that a null type fails validation. But `LogEventTO` puts no constraint on `type` (`OptionalFieldsUnconstrained`).

## Model

| member | source | states |
|---|---|---|
| `Event.Violations` | src/main/java/com/test/log/event/LogEventTO.java:14-21 | each `@NotNull` constraint is reported exactly when its field is null |
| `Event.ValidIffRequiredPresent` | src/main/java/com/test/log/event/LogEventTO.java:14-21 | a record is valid iff `id`, `state` and `timestamp` are all non-null |
| `Event.OptionalFieldsUnconstrained` | src/main/java/com/test/log/event/LogEventTO.java:23-25 | changing `type` or `host` (to null or not) never changes validity |
| `Event.StateValueUnchecked` | src/main/java/com/test/log/event/LogEventTO.java:17-18 | any non-null `state` value passes; only `id` and `timestamp` then decide validity |
| `Service.Abs` | src/main/java/com/test/log/service/LogService.java:114 | `Math.abs`: non-negative and equal to `x` or `-x` |
| `Service.ValidateLogEvent` | src/main/java/com/test/log/service/LogService.java:124-131 | true iff the record is non-null and its three required fields are non-null |
| `Service.CreateLogEvent` | src/main/java/com/test/log/service/LogService.java:109-121 | `eventId` is the first record's id. The duration is non-negative and is `t1 - t2` or `t2 - t1`. The event is an alert iff duration > threshold. `type`/`host` is the first record's value when non-null, otherwise the second record's value |
| `Service.Observe` | src/main/java/com/test/log/service/LogService.java:87-106 | one decoded record keeps the map well formed and keeps every group a singleton. A dropped record changes nothing. At most one event is appended and earlier saved events stay as they were |
| `Service.ParseFailure` | src/main/java/com/test/log/service/LogService.java:82-85 | the exception carries the offending line: its message is the fixed prefix, and the line can be recovered from what follows that prefix |
| `Service.ParseFailureInjective` | src/main/java/com/test/log/service/LogService.java:83-84 | two different lines never give the same exception |
| `Service.ProcessLines` | src/main/java/com/test/log/service/LogService.java:70-85 | a run keeps the map well formed and only appends to the saved events. It fails iff some line is malformed |
| `Service.AbortIsFinal` | src/main/java/com/test/log/service/LogService.java:70-85 | once a line has thrown, later lines change neither the state nor the exception |
| `Service.LogService.constructor` | src/main/java/com/test/log/service/LogService.java:47-57 | the map starts empty, nothing is saved yet, and the threshold is the configured one |
| `Service.LogService.ProcessLogFileEntry` | src/main/java/com/test/log/service/LogService.java:76-107 | a malformed line returns the exception and leaves the state unchanged. Any other line changes the map and the saved events exactly as `Observe` says. Every group stays a singleton |
| `Service.LogService.ProcessLogFile` | src/main/java/com/test/log/service/LogService.java:63-74 | the loop leaves the map, the saved events and the exception exactly as `ProcessLines` gives them for all the lines |
| `ServiceProperties.ObserveFirstSighting` | src/main/java/com/test/log/service/LogService.java:102-106 | on the first record of an id, exactly that key is added, bound to a one-element list. Nothing is saved and the other keys are unchanged |
| `ServiceProperties.ObserveSecondSighting` | src/main/java/com/test/log/service/LogService.java:91-101 | the second record for an id saves exactly the event built from [pending, new] and removes the key. The other keys are unchanged |
| `ServiceProperties.ObserveSavesOnlyCompletedPairs` | src/main/java/com/test/log/service/LogService.java:91-101 | an event is saved only for a valid record whose id was pending. The key is then gone and the event's `eventId` is that key |
| `ServiceProperties.ObserveAccounting` | src/main/java/com/test/log/service/LogService.java:87-106 | between calls, pending groups + 2 × saved events grows by one for each accepted record and by nothing for a dropped one |
| `ServiceProperties.ThirdSightingStartsFresh` | src/main/java/com/test/log/service/LogService.java:100-105 | a third record for an id whose pair completed opens a new one-element group and is not merged into the saved pair |
| `ServiceProperties.PairRestoresGroups` | src/main/java/com/test/log/service/LogService.java:91-106 | two records for a fresh id leave the map as it was and save the event of that pair |
| `ServiceProperties.PairOrderIndependent` | src/main/java/com/test/log/service/LogService.java:113-115 | either arrival order saves one event with the same id, duration and alert flag |
| `ServiceProperties.TypeAndHostDependOnOrder` | src/main/java/com/test/log/service/LogService.java:117-119 | swapping the arrival order keeps `type` (and `host`) iff at most one record has a value or both have the same value |
| `ServiceProperties.ProcessLinesKeepsSingletons` | src/main/java/com/test/log/service/LogService.java:91-106 | every pending group holds exactly one record after any run |
| `ServiceProperties.ProcessLinesAccounting` | src/main/java/com/test/log/service/LogService.java:70-72 | in a run that is not aborted, pending groups + 2 × saved events grows by exactly the number of accepted records. So there is one emission per completed pair |
| `ServiceProperties.CompletedRunSavesHalf` | src/main/java/com/test/log/service/LogService.java:95-100 | a run from an empty map that leaves no pending group saves one event per two accepted records |
| `ServiceProperties.ProcessLinesAlertsConsistent` | src/main/java/com/test/log/service/LogService.java:114-115 | every event saved in a run has a non-negative duration and is an alert iff that duration > threshold |
| `ServiceProperties.MalformedLineAborts` | src/main/java/com/test/log/service/LogService.java:80-85 | a malformed line ends the run with its exception. The state is the one the earlier lines left |
| `ServiceProperties.InvalidLineIsSkipped` | src/main/java/com/test/log/service/LogService.java:87-89 | a null or invalid record is skipped and the run goes on unchanged |
| `ServiceProperties.ReversedPairAtThreshold` | src/test/java/com/test/log/service/LogServiceTest.java:48-55 | finished before started, duration equal to the threshold, neither record with `type`/`host`: one event, no alert, null `type` and `host` |

## Left out

- Opening the file, joining the path, reading lines with `Scanner`, and the `@EventListener` startup trigger: these are I/O and framework wiring. The lines arrive as a sequence.
- Jackson JSON decoding is a foreign library. Each line arrives already decoded as a `Line`, and the model does not decide which texts are malformed.
- The Bean Validation framework, its lazily built `Validator` and the `log.error`/`log.debug` output are left out. Validation is written as the three null checks it amounts to, and the violation messages are not logged.
- The JPA repository, the generated database key `LogEvent.id` and the entity annotations are persistence. `save` appends to the ghost sequence `saved`. A save that fails, and so aborts the run, is not modelled.
- `Service.Abs` uses unbounded integers. It does not model the 64-bit overflow of `Math.abs(long - long)` for timestamps 2^63 or more apart, where the subtraction wraps around. At exactly 2^63 apart Java's `Math.abs` returns a negative duration, which never raises an alert when the threshold is not negative. Further apart, Java's duration is 2^64 minus the true difference.
- `Service.LogService.constructor`: the threshold is an `int`, so the unboxing failure of a null `Integer` threshold is not modelled.
- `Service.CreateLogEvent` requires the first record's `id` to be non-null. Its only caller passes validated records, and `event_id` is a non-null column, so a null id could never be saved.
