# Application Insights for Node.js: telemetry client, helpers and SDK entry points in Dafny

This project models the core of the Application Insights Node.js SDK:

- **`TelemetryClient`**:
  - `track` decides whether a telemetry item reaches the channel. It builds an envelope, stamps the item's time on it, runs the user's telemetry processors in registration order, and then consults the sampling processor.
  - It also models registering and clearing processors, the `trackException` rule that wraps non-`Error` exceptions, and how `flush` maps its options onto `Channel.triggerSend`.
- **`Util`**:
  - `trim` (white space stripped from both ends);
  - `getCookie` (the value of one cookie in a `Cookie` header);
  - `msToTimeSpan` (milliseconds in the C# `[d.]hh:mm:ss.fff` format);
  - `validateStringMap` (a property bag made into a string map);
  - `newGuid` (a version-4 UUID in the layout of section 4.4 of RFC 4122).
- **`OperationHeaderParser`**: its constructor. It adds a lower-case copy of every header key to the header object (the original keys stay), then reads the request id, the correlation context and the request context from it.
- **`applicationinsights`**: the module state. This covers:
  - `setup`, `start` and `dispose`;
  - the auto-collection switches of `Configuration`;
  - `setUseDiskRetryCaching`, whose settings reach the default client whether they are configured before or after `setup`.

Everything is a pure value. The channel is a log of what it was handed. The SDK module state is a record that every call takes and returns. The collaborators that the core calls but that are not part of this model are parameters:
- the envelope factory;
- `telemetryTypeToBaseType`;
- `Date.toISOString`;
- the sampling processor;
- `CorrelationIdManager`;
- `getHeaderValueForKey`.

The random draws of `newGuid` are parameters too.

Modules: `Wrappers` (Option, map lookup), `Text` (trim, split, indexOf, substring), `Decimal` (decimal rendering and parsing), `Cookie`, `TimeSpan`, `StringMap`, `Guid`, `OperationHeaderParser`, `TelemetryClient` and `ApplicationInsights`.

Where the code is easy to misread, the model follows it:

- **Missing headers:** a missing `request-id` or `correlation-context` header leaves the parser's field `undefined` (`None`), not the empty string the field initialisers suggest. The constructor assigns the lookup result unconditionally (AutoCollection/OperationHeaderParser.ts:19, :21).
- **Header casing:**
  - Header names are matched case-insensitively only because the constructor copies every key to its lower-case form.
  - When several keys lower-case to the same name, the lower-case entry ends up holding the value of the last key, in key order, that is not itself lower case. The lower-case key's own value survives only when no other key lower-cases to it.
  - `OperationHeaderParser.CollisionKeepsCasedValue` and `OperationHeaderParser.CollisionLaterCasedWins` show this.
- **Processors may change the envelope and the context bag:** a telemetry processor may change the envelope and the shared `contextObjects` bag, also before throwing. A change to the envelope is visible to later processors, to the sampler and to the channel. A change to the bag is visible to later processors and, when the caller's item carries its own `contextObjects`, to the caller after `track` returns. A missing bag is replaced by a fresh object that the caller never sees (`TelemetryClient.AfterChain`).
- **An invalid `Date` stops `track`:** `toISOString` throws on an invalid `Date`, so `track` throws before any processor runs and nothing is sent.
- **`trackException` changes the caller's item:** the wrapped exception is written into the caller's own item, and the caller sees it after the call. When the exception's `toString()` throws (or it has none), `trackException` throws before `track` is reached.
- **`validateStringMap(null)`** returns an empty map, because `typeof null` is `"object"`. Any other non-object returns `undefined`.
- **`validateStringMap` can throw:** a value whose `toString()` throws, or returns something without a `trim` method, makes the whole call throw; the map built so far is lost.
- **`validateStringMap` truncation:** it does not shorten long values (see Findings).

## Model

| member | source | states |
|---|---|---|
| Text.Trim | Library/Util.ts:33-35 | the result is no longer than the input and has no white space at either end |
| Text.TrimSpec | Library/Util.ts:33-35 | `trim(s)` is `s` with exactly its leading and trailing white-space runs removed: a contiguous piece of `s` with only white space before and after it |
| Text.TrimValue | Library/Util.ts:33-39 | a non-string gives ""; a string gives its trim |
| Text.TrimOfUnique | Library/Util.ts:33-35 | a string has only one trim |
| Text.TrimIdempotent | Library/Util.ts:33-35 | trimming twice is the same as trimming once |
| Text.TrimOfStripped | Library/Util.ts:33-35 | a string with no white space at either end is its own trim |
| Text.TrimChars | Library/Util.ts:33-35 | trimming introduces no character that was not in the input |
| Text.Split | Library/Util.ts:16 | `split(";")` yields at least one piece, none contains the separator, and joining the pieces with it gives back the input |
| Text.SplitJoin | Library/Util.ts:16 | splitting pieces free of the separator after joining them gives back exactly those pieces |
| Text.IndexOf | Library/Util.ts:115 | the result is -1 exactly when the character is absent, else its first position |
| Text.Substring | Library/Util.ts:21 | `substring(start, end)` is the slice between the indices, and runs to the end when `end` is past it |
| Cookie.FirstNaming | Library/Util.ts:17-24 | the segment found is the first one whose trimmed form starts with `name=`; none is found only when no segment does |
| Cookie.GetCookie | Library/Util.ts:12-28 | an empty name or a non-string cookie gives ""; otherwise the result is the text after `name=` in the first segment that names the cookie, or "" when none does; the result never contains `;` |
| Decimal.NatToString | Library/Util.ts:111-113 | `"" + n` is a non-empty run of digits without a leading zero, one digit exactly when `n < 10` |
| Decimal.ParseNatToString | Library/Util.ts:111-113 | reading the decimal text of `n` back gives `n` |
| Decimal.ParsePadded | Library/Util.ts:115-117 | a zero-padded field reads back as its value |
| TimeSpan.MsToTimeSpan | Library/Util.ts:105-121 | negative input is read as 0; the text is the `[d.]hh:mm:ss.fff` layout of the duration's fields, and reading it back gives the (clamped) milliseconds |
| TimeSpan.MsToTimeSpanLayout | Library/Util.ts:110-120 | for `ms >= 0` the assembled text (`toFixed`, `replace`, padding) is the day count with a `.` when there are days, then hours, minutes and seconds as two digits each, then milliseconds as three digits, each field taken from `ms` |
| TimeSpan.SecondsTextLayout | Library/Util.ts:110-115 | `toFixed(7)` with up to four trailing zeros removed and padded to two integer digits is the seconds as `ss.fff` |
| TimeSpan.TimeSpanRoundTrip | Library/Util.ts:105-121 | reading the time span text back gives the milliseconds: no information is lost and the fields do not overflow into each other |
| TimeSpan.ParseLayout | Library/Util.ts:118-120 | the `[d.]hh:mm:ss.fff` layout of any in-range fields reads back as their duration |
| TimeSpan.NegativeTimeSpan | Library/Util.ts:106-108 | a negative (or zero) duration is rendered as `00:00:00.000`, which reads back as 0 |
| StringMap.ValidateStringMap | Library/Util.ts:126-149 | a non-object gives `undefined` and `null` gives an empty map; an object throws exactly when one of its values converts badly; otherwise exactly the string and convertible values are kept, each as the trim of its text |
| StringMap.ValidateIdempotent | Library/Util.ts:126-149 | validating the result again, as string values, returns it unchanged |
| StringMap.LongValueNotTruncated | Library/Util.ts:142 | a value of 1025 non-blank characters is stored with all 1025 |
| StringMap.ValidateStringMapCapped | Library/Util.ts:142 | with the evidently intended limit, every kept value is the first 1024 characters of its trimmed text, or the whole of it when that fits; `undefined`, `null` and throwing are as in the code as written |
| StringMap.CappedAgreesOnShortValues | Library/Util.ts:142 | the capped and the as-written validation agree on every object whose trimmed values fit the limit |
| Guid.NewGuid | Library/Util.ts:58-79 | the result has the version-4 layout: 36 characters, dashes at 8, 13, 18 and 23, `4` at 14, one of `8 9 A B` at 19, upper-case hex elsewhere |
| Guid.GuidCarriesDraws | Library/Util.ts:63-78 | every random position holds the 4-bit group of the draw it comes from (`oct[8]` and `oct[31]` are unused), and position 19 holds the clock draw with variant bits `10` |
| Guid.OctAt | Library/Util.ts:63-74 | digit `j` of `oct` is group `j % 8` of draw `j / 8`, least significant first |
| OperationHeaderParser.Lower | AutoCollection/OperationHeaderParser.ts:15 | `toLowerCase` keeps the length, leaves no capital letter, and changes a character only by moving a capital to its small letter |
| OperationHeaderParser.Normalize | AutoCollection/OperationHeaderParser.ts:13-16 | every lookup in the normalised headers agrees with the reference resolution: the value of the last differently cased key that lower-cases to the name, else the original value |
| OperationHeaderParser.NormalizeKeepsKeys | AutoCollection/OperationHeaderParser.ts:13-16 | every original key and its lower-case form are present, and a key with an upper-case letter keeps its value |
| OperationHeaderParser.LookupMissing | AutoCollection/OperationHeaderParser.ts:13-16 | a lower-case name is missing exactly when no header key lower-cases to it |
| OperationHeaderParser.LookupUnique | AutoCollection/OperationHeaderParser.ts:13-16 | a lower-case name that exactly one key lower-cases to finds that key's value, whatever its casing |
| OperationHeaderParser.CollisionKeepsCasedValue | AutoCollection/OperationHeaderParser.ts:13-16 | with `Request-Id: A` and `request-id: B`, the normalised `request-id` is `A` |
| OperationHeaderParser.CollisionLaterCasedWins | AutoCollection/OperationHeaderParser.ts:13-16 | with `Request-Id: A` and `REQUEST-ID: B`, the normalised `request-id` is `B` |
| OperationHeaderParser.Parse | AutoCollection/OperationHeaderParser.ts:12-23 | each field is the collaborator's result on the resolved header; the operation id is the root of the request id; the returned headers are the normalised ones |
| OperationHeaderParser.ParentFromAnyCasing | AutoCollection/OperationHeaderParser.ts:19-22 | a request-id header in any casing becomes the parent id, and the request and operation ids derive from it |
| OperationHeaderParser.NoParentWithoutHeader | AutoCollection/OperationHeaderParser.ts:19-20 | without a request-id header the parent id is undefined and the request id is generated from undefined |
| OperationHeaderParser.InboundRequestExample | AutoCollection/OperationHeaderParser.ts:12-23 | concrete request-id and correlation-context headers give that parent, that correlation context, and the root of the id generated from the parent as operation id |
| TelemetryClient.RunTelemetryProcessors | Library/TelemetryClient.ts:152-179 | the loop decides what the reference chain decides (null entries skipped, first `false` rejects and stops, a throw counts as accepting), and leaves the envelope and the shared bag as the processors leave them; no processors accept unchanged |
| TelemetryClient.Prepared | Library/TelemetryClient.ts:113-118 | the envelope keeps the factory's data; the item's time, when it has one, replaces the factory's time; there is no envelope exactly when `toISOString` throws on that time |
| TelemetryClient.Track | Library/TelemetryClient.ts:111-133 | an untrackable item changes nothing; an item whose time `toISOString` throws on raises and changes nothing; otherwise exactly one envelope is sent iff the chain accepts and the sampler keeps the envelope the chain leaves, that envelope is the one sent, the sampler is consulted only after acceptance, the caller's own bag ends as the processors left it, and nothing else changes |
| TelemetryClient.AfterChain | Library/TelemetryClient.ts:152-166 | only the bag of the caller's item changes: when the item carries one, it ends as the chain left it; a missing bag stays missing |
| TelemetryClient.ReadOnlyLeavesItem | Library/TelemetryClient.ts:160-170 | with processors that change nothing, the caller's item comes back unchanged |
| TelemetryClient.AddTelemetryProcessor | Library/TelemetryClient.ts:141-143 | the processor is appended after those already registered, null included, and nothing else changes |
| TelemetryClient.ClearTelemetryProcessors | Library/TelemetryClient.ts:148-150 | no processors remain; what was sent and flushed stays |
| TelemetryClient.ClearedChainDefersToSampler | Library/TelemetryClient.ts:148-150 | after clearing, every item whose envelope can be prepared passes the chain unchanged, leaving the decision to the sampler |
| TelemetryClient.ChainAppend | Library/TelemetryClient.ts:162-170 | a chain of two parts runs the second only when the first accepts, on the envelope and bag the first leaves |
| TelemetryClient.FirstRejectionDecides | Library/TelemetryClient.ts:166-168 | the first processor to return `false` decides the item; later ones are never reached |
| TelemetryClient.AddedProcessorRunsLast | Library/TelemetryClient.ts:141-143 | a newly added processor cannot rescue an item rejected earlier, and decides an item accepted earlier, seeing the envelope and bag as the earlier ones left them |
| TelemetryClient.ThrowingCountsAsAccepting | Library/TelemetryClient.ts:172-175 | replacing every throw by a normal return changes no decision and no envelope |
| TelemetryClient.NullProcessorsSkipped | Library/TelemetryClient.ts:164-165 | dropping the null entries changes nothing |
| TelemetryClient.ReadOnlyChain | Library/TelemetryClient.ts:162-178 | with processors that change neither the envelope nor the bag, the item is accepted iff none returns `false`, and both stay unchanged |
| TelemetryClient.WrapException | Library/TelemetryClient.ts:61-63 | a truthy non-`Error` exception becomes an `Error` with its text; falsy and `Error` values are kept; one whose `toString()` throws makes the wrapping throw |
| TelemetryClient.WrapExceptionIdempotent | Library/TelemetryClient.ts:61-63 | wrapping a wrapped exception again changes nothing |
| TelemetryClient.TrackException | Library/TelemetryClient.ts:60-65 | an exception that cannot be converted raises before `track`, with nothing changed; otherwise the caller's item afterwards carries the wrapped exception and the bag the processors left; tracking it is tracking that item as an exception: it raises iff its time cannot be rendered, and one envelope is sent iff the chain and sampler accept it |
| TelemetryClient.Flush | Library/TelemetryClient.ts:100-104 | exactly one `triggerSend` is recorded; it reports a crash only when the options say `isAppCrashing: true`, and passes their callback, if any |
| ApplicationInsights.Setup | applicationinsights.ts:42-54 | there is a default client afterwards; an existing one keeps its key; the client holds the configured retry settings |
| ApplicationInsights.SetupIdempotent | applicationinsights.ts:43-47 | a second `setup` changes nothing |
| ApplicationInsights.Start | applicationinsights.ts:62-70 | the SDK is started afterwards exactly when it was or there is a default client |
| ApplicationInsights.StartNeedsSetup | applicationinsights.ts:62-67 | `start` without a default client changes nothing |
| ApplicationInsights.Dispose | applicationinsights.ts:186-189 | no client and not started afterwards; the configuration survives |
| ApplicationInsights.SetupAfterDispose | applicationinsights.ts:42-54 | after `dispose`, `setup` creates a fresh, unstarted client with the new key and the retry settings configured before |
| ApplicationInsights.SetAutoCollectConsole | applicationinsights.ts:85-92 | sets the console switch; console.log collection is on only when asked for explicitly; nothing else changes |
| ApplicationInsights.SetAutoCollectExceptions | applicationinsights.ts:99-103 | sets that switch and nothing else |
| ApplicationInsights.SetAutoCollectPerformance | applicationinsights.ts:110-114 | sets that switch and nothing else |
| ApplicationInsights.SetAutoCollectRequests | applicationinsights.ts:121-125 | sets that switch and nothing else |
| ApplicationInsights.SetAutoCollectDependencies | applicationinsights.ts:132-136 | sets that switch and nothing else |
| ApplicationInsights.SetAutoDependencyCorrelation | applicationinsights.ts:143-147 | sets that switch and nothing else |
| ApplicationInsights.SetUseDiskRetryCaching | applicationinsights.ts:159-168 | the settings are remembered and passed at once to a default client that exists; no client is created |
| ApplicationInsights.RetryOrderIrrelevant | applicationinsights.ts:159-165 | configuring retry caching before or after `setup` leaves the same state |
| ApplicationInsights.RunKeepsWellformed | applicationinsights.ts:12-189 | any sequence of calls keeps the invariant: started only with a default client, whose retry settings are the configured ones |
| ApplicationInsights.ReachableWellformed | applicationinsights.ts:12-24 | every state reachable from the initial defaults satisfies that invariant |

## Left out

- `Sender`, `Channel`, `Config`, `Context`, `EnvelopeFactory`, `CorrelationIdManager`, `RequestResponseHeaders` and `Logging` are not part of this model. Their effects are parameters (`Collaborators`) or a log of calls. The warnings and info messages are dropped.
- The thin wrappers `trackTrace`, `trackMetric`, `trackEvent`, `trackRequest` and `trackDependency` are not modelled separately. Each is `Track` with a fixed kind.
- `Configuration.setInternalLogging` only sets logging flags, and is left out with `Logging`.
- `Setup` records the instrumentation key as given, as the code does: the `TelemetryClient` constructor passes it to `new Config(iKey)`, which only stores it (Library/TelemetryClient.ts:29, Library/Config.ts:36). The doc comments (applicationinsights.ts:36-38, Library/TelemetryClient.ts:26) promise a fallback to the `APPINSIGHTS_INSTRUMENTATIONKEY` environment variable when no key is given, but neither Library/Config.ts nor Library/TelemetryClient.ts reads the environment; `Config.ENV_iKey` is declared and not read. The environment is therefore not part of this model.
- Auto-collection: applicationinsights.ts only stores the switches. `start` and the setters start and stop no collector (`setAutoCollectConsole` has an empty `if (_isStarted) {}` block), and the model likewise keeps the switches as state only. The collector modules themselves are not part of this model.
- `Util.random32`, `Util.randomu32` and `Math.random` are not modelled. Their results are the parameters of `Guid.NewGuid`.
- `Util.isArray`, `Util.isError` and `Util.isDate` are not modelled. Whether a value is an `Error` is part of the `ExceptionValue` datatype.
- TimeSpan.MsToTimeSpan: modelled for integer milliseconds only; `NaN` and fractional milliseconds are left out. The seconds field is computed exactly. In the source, `totalms / 1000` is a double. Below 2^29 seconds (536870912000 ms, about 17 years) its rounding error stays under the 5·10^-8 that `toFixed(7)` absorbs, so the digits agree. From there on the source may print seven fraction digits where the model prints three.
- Text: a Dafny `char` is a Unicode scalar value, so lengths and positions count code points, where JavaScript counts UTF-16 code units. A character outside the Basic Multilingual Plane counts once rather than twice, and lone surrogates cannot be represented. `Trim` and `GetCookie` only compare positions within one string and are unaffected. `StringMap.ValidateStringMapCapped` cuts at 1024 code points rather than 1024 code units.
- TelemetryClient.Track: processors registered or cleared by a processor while the chain runs are not modelled. The chain runs over the processors registered when `track` is called, as the loop over the length read before it does in the common case.
- TelemetryClient.Flush: `!!isAppCrashing` is modelled for boolean and undefined values only, as the option is typed.
- OperationHeaderParser.Lower: lower-cases the ASCII letters only. JavaScript's `toLowerCase` also maps non-ASCII letters.
- ApplicationInsights.SetUseDiskRetryCaching: the interval and byte limit are integers (or undefined) rather than JavaScript numbers.

## Findings

| source | as written | input that shows it | evidently intended | confidence | as-written member | corrected member |
|---|---|---|---|---|---|---|
| Library/Util.ts:142 | `property.trim(0, Util.MAX_PROPERTY_LENGTH)`; `String.prototype.trim` takes no arguments, so values are only stripped of white space | a property whose value is 1025 characters `a`: it is stored with all 1025 characters | each stored value cut to `MAX_PROPERTY_LENGTH` (1024) characters after trimming | not executed | StringMap.LongValueNotTruncated | StringMap.ValidateStringMapCapped |
