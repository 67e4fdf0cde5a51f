# nsclient adapter — a verified model

This project models the core of the ioBroker `nsclient` adapter, which
polls NSClient++ monitoring agents over HTTPS and publishes their answers
as ioBroker objects and states. It models these parts:

- **`name2id`**, the identifier normaliser (module `Ident`).
- **`handleOffline` / `handleOnline`**, the reachability flag of a device and the log entries it produces (module `Reach`).
- **`updateState`** with its type cache `STATEs`, and **`initFolderObject`** (module `Store`). The host store is seen only through the calls made to it, an ordered list of events.
- **`QUERIES`** (the query catalog), **`HTTP_CODES`** (the status-text table), the JSON bodies an agent answers with, and how one request outcome is classified (module `Catalog`).
- **`parseInfo` / `parsePerf`**, stated as the list of publish requests each makes, in order (module `Parsers`).
- **`executeQuery` / `scanDevice`**, stated as pure functions of a device's flags and of the network, which is seen as an oracle (module `Poll`).
- **`setupContices`**, stated as the list of device contexts it builds (module `Setup`).
- **`validateConfig`**, the verdict over the device list and the in-place trimming and clamping of each entry (module `Config`). It works on an `array` of entries.
- **The adapter itself** (module `NsClient`):
  - `DeviceContext` holds the three flags `busy`, `initialized` and `offline`, which polling updates in place;
  - `Adapter` holds `STATEs`, the store events, the device log, the requests sent and `CTXs`.
  - Every imperative method of these classes is proved against the functions of the modules above. Each loop carries the invariants that tie it to those functions.
- **JavaScript behaviour** the code relies on (module `Js`): `\s`, `trim`, `split` on one character, `parseInt(s, 10)`, `x || d`, and `String(n)`.

`adapter.FORBIDDEN_CHARS` is a parameter: a set of characters that excludes `_`, `p`, `c` and `t`, the characters `name2id` writes itself. The network is a parameter too: `Net`, a function from a request and a timeout in milliseconds to an outcome made of an error code and text, an HTTP status and a body.

Where the code and its documentation disagree, the model follows the code. The one exception is the duplicate-name lookup under "## Findings": it is modelled as written and corrected, and the rest of the model uses the corrected lookup.

- Device names are checked for uniqueness after trimming, but before `name2id`. Two names that differ can therefore map to the same object id (`Config.NamesCollideAfterNormalising`).
- An empty device name and a name that starts with `.` are both accepted.
- A non-empty list whose devices are all inactive is accepted, because the emptiness test counts every entry (main.js:645). No device is then polled (`Setup.InactiveOnlyAccepted`).

## Model

| member | source | states |
|---|---|---|
| Js.TrimShape | main.js:656-657 | `trim` keeps a contiguous slice of its input and cuts only white space from both ends; what it keeps neither starts nor ends with white space |
| Js.Split | main.js:596 | `split` on one character never returns an empty list; no part contains the separator; joining the parts with the separator gives the input back |
| Js.SplitJoin | main.js:596 | splitting the join of separator-free parts gives exactly those parts back |
| Js.NatToString | main.js:502 | the text of a natural number is a non-empty run of digits without a leading zero, whose decimal value is `n`; for a safe integer, such as an HTTP status, this is `String(n)` |
| Js.ParseIntUnsigned | main.js:683-687 | a text passing `^\d+$` is read by `parseInt(s, 10)` as its decimal value |
| Js.ParseIntRoundTrip | main.js:687 | `parseInt` of `String(n)` gives `n` back for every safe integer (magnitude below 2^53), negative ones included |
| Js.OrDefault | main.js:687 | `parseInt(...) || d` yields a non-zero parsed number unchanged, and the default for `NaN` or zero |
| Ident.CharImage | main.js:156 | the image of every single character is a valid identifier: no forbidden character, no `%`, `-` or white space |
| Ident.Name2IdCharwise | main.js:155-157 | the three chained replaces equal the character-by-character reference definition |
| Ident.Name2IdClean | main.js:155-157 | the output of `name2id` has no forbidden character, no `%`, no `-` and no white space, whatever the input |
| Ident.Name2IdEmpty | main.js:156 | an empty name gives the empty identifier |
| Ident.Name2IdFixesIds | main.js:155-157 | a name that is already a valid identifier is left unchanged |
| Ident.Name2IdIdempotent | main.js:155-157 | normalising a second time changes nothing |
| Ident.Name2IdAppend | main.js:155-157 | `name2id` distributes over concatenation, so a path is normalised part by part |
| Ident.NormalizedLength | main.js:156 | the identifier is at least as long as the name and at most three times as long (`%` becomes `pct`) |
| Ident.NormalizedIsId | main.js:155-157 | the reference definition only produces valid identifiers |
| Ident.NormalizedOfId | main.js:155-157 | the reference definition leaves a valid identifier unchanged |
| Ident.ReplaceForbiddenAppend | main.js:156 | the forbidden-character replace distributes over concatenation |
| Ident.ReplacePercentAppend | main.js:156 | the `%` to `pct` replace distributes over concatenation |
| Ident.ReplaceDashSpaceAppend | main.js:156 | the `-` and white-space replace distributes over concatenation |
| Reach.OfflineLogSpec | main.js:167-175 | `handleOffline` reports `offline` exactly when the device was online, and its non-empty message only then; it reports nothing for a device already offline; the reported changes are exactly one change to offline, or none |
| Reach.OnlineLogSpec | main.js:185-193 | the mirror image for `handleOnline`: `online` is reported exactly when the device was offline, with its message only when that is non-empty |
| Reach.RunAlternates | main.js:167-193 | over any sequence of offline and online calls, the reported changes alternate strictly; the first change leaves the initial state; the final flag is the state the changes lead to and the direction of the last call |
| Reach.RunSteady | main.js:167-193 | repeated calls in the state the device is already in add no log entries and keep the flag |
| NsClient.Adapter.HandleOffline | main.js:167-175 | afterwards the context is offline, and the adapter log grows by exactly the entries `Reach.OfflineLog` gives for the old flag |
| NsClient.Adapter.HandleOnline | main.js:185-193 | afterwards the context is online, and the log grows by exactly the entries `Reach.OnlineLog` gives for the old flag |
| Store.UpdateStateEffect | main.js:229-243 | after `updateState(id, v, q, common)`: `STATEs[id]` holds `common.type`; no other cache entry appears, disappears or changes; the old events are kept; a declaration precedes the write exactly when `id` was unknown or cached with another type; exactly one write `(id, v, ack = true, q)` always ends the call |
| Store.UpdateStateTwice | main.js:232-243 | a second update of the same path with the same type declares nothing and adds only its write |
| Store.ExecWrites | main.js:243 | after any list of publish requests the events have only grown, and the writes among them are the old writes followed by one per leaf request, in request order |
| Store.ExecCache | main.js:232-240 | after any list of requests, each path is cached with the type of the last leaf published there, or is cached as before when none was published |
| Store.EmptyCoherent | main.js:140 | the empty cache with no events is coherent |
| Store.ApplyCoherent | main.js:232-243 | one publish request keeps the cache coherent: it knows exactly the declared paths, each with the type of its last declaration, and no state is written before it is declared |
| Store.ExecCoherent | main.js:229-245 | any list of publish requests keeps the cache coherent |
| NsClient.Adapter.UpdateState | main.js:229-245 | the cache and the events become what `Store.Apply` gives for one leaf request, whose effect `Store.UpdateStateEffect` states |
| NsClient.Adapter.InitFolderObject | main.js:283-295 | exactly one folder declaration is appended and the cache is unchanged |
| Catalog.Classify | main.js:497-508 | a request yields `jdata` exactly when there is no error code and the status is 200, and then `jdata` is the body |
| Catalog.NotFoundText | main.js:501-503 | a 404 fails, and the message handed to `handleOffline` is `HTTP error [404] Not Found`, taken from `HTTP_CODES` |
| Parsers.IsNumericIff | main.js:417 | the scanning test is true exactly for texts in the language of `^\d+(\.\d+)?$` |
| Parsers.FieldTyping | main.js:417-420 | a perf field is declared as a number exactly when its value matches `^\d+(\.\d+)?$`, and as a string exactly when it does not |
| Parsers.InfoLeaves | main.js:351-372 | `parseInfo` makes exactly two requests, both string leaves with quality 0, writing `<id>.info.name` and then `<id>.info.version` |
| Parsers.PerfLeaves | main.js:384-427 | when there is a first line, `parsePerf` publishes the numeric `result` and the first line's `message` under `name2id(id + '.' + command)`, and one leaf per field of every perf group; it publishes no other leaf |
| Parsers.PerfFoldersFirst | main.js:390-418 | `parsePerf` declares each folder before the states below it: the check's folder first, its `perf` folder fourth, and every counter's folder before each leaf of that counter |
| Parsers.PerfFirstLineOnly | main.js:402-414 | lines after the first change nothing that `parsePerf` publishes |
| Parsers.PerfWithoutLines | main.js:388-402 | with no line at all, only `result` is written before `lines[0].message` throws |
| Parsers.PerfPaths | main.js:390-415 | when the device id and `.perf` are already identifiers, the base is `id + '.' + name2id(command)` and a field path is `base.perf.<name2id(key)>.<name2id(field)>` |
| Parsers.CpuExample | main.js:384-427 | for a concrete `check_cpu` answer, the writes are the result, the message and the load field, in that order; the field `"85"` is typed as a number |
| Parsers.GroupsContain | main.js:411-426 | every field of every perf group gets its leaf |
| Parsers.GroupsOnly | main.js:411-426 | every leaf the loops publish belongs to some field of some group |
| NsClient.Adapter.ParseInfo | main.js:351-372 | the store becomes what `Parsers.InfoPublishes` makes of it |
| NsClient.Adapter.ParsePerf | main.js:384-427 | the store becomes what `Parsers.PerfPublishes` makes of it; both nested loops are proved against it |
| NsClient.Adapter.PublishGroup | main.js:411-426 | one pass of the outer loop: the group's folder, then its fields |
| NsClient.Adapter.PublishFields | main.js:414-425 | the inner loop: one leaf per field, in order |
| NsClient.Adapter.RunParser | main.js:44-61 | the dispatch through `QUERIES`: the identity query goes to `parseInfo`, every check to `parsePerf` |
| Poll.AskSpec | main.js:492-510 | after `executeQuery`: the device is offline exactly when the query failed; a query succeeds exactly when there is no error and the status is 200; `busy`, `initialized` and the answers parsed do not change; the query is recorded as sent |
| Poll.AskLogSpec | main.js:497-508 | `offline` is logged exactly when an online device fails, `online` exactly when an offline device succeeds, and nothing when the state does not change |
| Poll.AnsweredSpec | main.js:542-549 | the check loop gets answers for a prefix of the queries, and the query after that prefix fails |
| Poll.RepliesSpec | main.js:545-550 | the answers handed to the parsers are, in order, the bodies of the answered queries |
| Poll.ChecksStops | main.js:545-548 | a failing check ends the loop right after it is sent |
| Poll.ChecksGoesOn | main.js:545-550 | a successful check is parsed and the loop goes on with the next one |
| Poll.ChecksSpec | main.js:542-552 | the loop sends the queries in order up to and including the first failure; it parses exactly the answered ones; it never changes `busy` or `initialized`; the device is offline afterwards exactly when the last query sent failed |
| Poll.TickWhenBusy | main.js:526-529 | a busy device only gets the busy warning: its flags are unchanged, no query is sent and nothing is parsed |
| Poll.TickInfoFails | main.js:530-542 | an uninitialised device whose identity query fails sends only that query, parses nothing, stays uninitialised, is offline and is no longer busy |
| Poll.TickRunsChecks | main.js:530-554 | otherwise the identity answer, if it was needed, is parsed first; then the checks run as `Poll.ChecksSpec` says; afterwards the device is initialised and not busy |
| Poll.TickCoherent | main.js:522-556 | a poll keeps the type cache coherent and only appends to the store events |
| NsClient.Adapter.ExecuteQuery | main.js:492-510 | one GET of `ctx.url + QUERIES[q].query` is recorded; the answer is `Poll.Answer`; the device is offline exactly when the query failed; the log grows as `Poll.AskLog` says |
| NsClient.Adapter.QueryStep | main.js:492-510 | one query moves the flags, the log and the requests exactly as `Poll.Ask` does |
| NsClient.Adapter.ParseAnswer | main.js:550 | parsing one more answer extends the store exactly by that parser's publish requests |
| NsClient.Adapter.IdentifyDevice | main.js:532-540 | the identity step moves the flags, log, requests and store exactly as `Poll.InfoStep` does |
| NsClient.Adapter.RunChecks | main.js:542-552 | the check loop with its early break moves the flags, log, requests and store exactly as `Poll.Checks` does, and does nothing for an uninitialised device |
| NsClient.Adapter.ScanDevice | main.js:522-556 | the flags, log and requests after `scanDevice` are those of `Poll.Tick` from the old flags, and the store is what the answers' parsers make of it |
| Setup.EnabledChecksSpec | main.js:620-623 | the queries are exactly the checks whose flag is set, each once, in the fixed order cpu, drive size, memory, and never the identity query |
| Setup.DefaultPortUsed | main.js:596-598 | an address without `:` is the host, and port 8443 is used |
| Setup.HostAndPort | main.js:596-598 | `host:port` splits into that host and that port |
| Setup.EmptyPortDefaults | main.js:596-598 | `host:` with an empty port falls back to 8443 |
| Setup.ActiveIndicesSpec | main.js:585-590 | the positions that get a context are exactly the active entries, in increasing order |
| Setup.ContextsIndexed | main.js:585-628 | there is one context per active entry, numbered contiguously from 0; the `j`-th is built from the `j`-th active entry |
| Setup.NoActiveNoContexts | main.js:585-590 | a list without active entries builds no context |
| Setup.InactiveOnlyAccepted | main.js:645-654 | a non-empty list of inactive devices only passes validation, and no context is built from it |
| Setup.NormalizedReady | main.js:687-716 | after `validateConfig` every active entry's timings are numbers, as `setupContices` needs |
| Setup.ValidatedTimings | main.js:607-608 | after validation the timeout and poll interval are in milliseconds, with 1000 <= timeout < poll interval <= 3600000, and below 0x7fffffff |
| Setup.ContextNamesDistinct | main.js:601-602 | after a successful validation the contexts have distinct names |
| NsClient.DeviceContext.constructor | main.js:616-618 | a new context is not busy, not initialised and counted as online |
| NsClient.Adapter.constructor | main.js:139-140 | the adapter starts with an empty `STATEs`, an empty `CTXs` and no events, log entries or requests |
| NsClient.Adapter.SetupContexts | main.js:582-629 | `CTXs[j]` for each `j` below the number of active devices is a fresh context built by `Setup.Contexts`, with all three flags false; entries beyond them are kept |
| NsClient.Adapter.OnReady | main.js:790-799 | the configuration is validated; on failure `CTXs` is untouched; on success every active device gets a fresh idle context, and no two contexts share a name |
| Config.ClampTimeout | main.js:687-697 | the timeout ends in [1, 600]; a parsed value in range is kept; a text without digits gives 5 |
| Config.ClampPoll | main.js:703-718 | the poll interval ends above the timeout and at least 5, and at most 3600 unless raised to timeout + 1; a parsed value in range above the timeout is kept |
| Config.NormalizeBounds | main.js:683-718 | every active entry leaves with 1 <= timeout <= 600, 5 <= poll <= 3600 and poll > timeout, whatever the verdict |
| Config.ClampTimeoutFixed | main.js:687-697 | a timeout already in range is kept |
| Config.NormalizeIdempotent | main.js:656-718 | validating an entry a second time changes nothing in it |
| Config.TrimIdempotent | main.js:656-657 | trimming twice is trimming once |
| Config.AddressIsDomain | main.js:674-681 | every IPv4 literal also passes the domain test, so an address is accepted exactly when it passes the domain pattern |
| Config.JoinHostChars | main.js:674-676 | dotted digit groups consist of domain characters only |
| Config.NoDotNoDoubleDot | main.js:663-666 | a name without a dot never contains `..` |
| Config.PlainDevice | main.js:656-702 | a device with a dot-free trimmed name, a host of domain characters, no port and numeric timings passes every test |
| Config.SingleDeviceAccepted | main.js:645-727 | a list of one active, well-formed device is accepted |
| Config.PairAccepted | main.js:667-671 | two well-formed active devices are accepted exactly when their trimmed names differ |
| Config.ValidNamesDistinct | main.js:667-671 | in an accepted list, active devices have distinct trimmed names |
| Config.RejectedWhenDuplicate | main.js:667-671 | a list is rejected when an active device repeats the trimmed name of an earlier active device |
| Config.RejectedWhenBad | main.js:659-702 | a list is rejected when any active device fails a test of its own, wherever it stands |
| Config.InactiveIgnored | main.js:654 | appended to a non-empty list, an inactive entry neither changes the verdict nor is itself changed |
| Config.NamesCollideAfterNormalising | main.js:667-671 | uniqueness is tested on trimmed names, not on ids: `Srv-1` and `Srv 1` are both accepted and get the same object id |
| Config.SrvIdsCollide | main.js:155-157 | `Srv-1` and `Srv 1` map to the same id |
| Config.DashAndSpaceCollide | main.js:156 | `-` and a space in the same place always give the same id |
| Config.AsWrittenIffNoInheritedName | main.js:650-671 | the loop as written accepts a list exactly when the corrected verdict accepts it and no active device is named after a key inherited from `Object.prototype` |
| Config.ConstructorRejected | main.js:650-671 | a single well-formed device called `constructor` is rejected by the lookup as written, and accepted by the corrected one |
| Config.ValidateConfig | main.js:637-728 | the result is the corrected verdict: true exactly when the list is non-empty and every active entry passes its tests and repeats no earlier active name. `Config.AsWrittenIffNoInheritedName` relates it to the lookup as written. In every case each active entry is trimmed and clamped in place, and each inactive one is left as it was |

## Left out

- `httpsGetAsync` (main.js:438-478) is not modelled: no TLS, no socket events, and no `HPE_INVALID_CONSTANT` branch, which never resolves. A response that never emits `data`, such as one with an empty body, never resolves either, so `busy` stays set for good. Only the first `data` chunk resolves the promise (main.js:451-462), so a body that arrives in several chunks reaches the caller cut short. The network is the parameter `Net`, which gives an outcome for a request and a timeout.
- `JSON.parse` (main.js:507) is not modelled: the answer body is already a datatype with the fields the parsers read. A malformed body and a falsy `jdata` are left out. A body that makes `JSON.parse` throw (main.js:507, after `handleOnline`) rejects `scanDevice` before `busy` is reset. If the process survives the unhandled rejection, every later poll of that device only logs the busy warning. The model does not capture this.
- Timers and the lifecycle are left out, because they are scheduling, not logic: `startReaderThreads`, `setImmediate`, `setInterval`, `onUnload` and `startAdapter`. `NsClient.Adapter.OnReady` covers only validation and context setup.
- `initBaseObjects`, `initAllBaseObjects`, `initDeviceObject` and the `info.connection` state are left out. They are store calls with fixed arguments.
- Debug logging, `console.log` and the wording of error and warning logs in `validateConfig` are left out. Only the device log entries of `handleOffline`, `handleOnline` and `scanDevice` are modelled.
- `NsClient.Adapter.ScanDevice`: the parser calls in the source are not awaited, so their store calls may interleave with later queries. The model runs them in order, right after their answer.
- `Ident.Name2IdCharwise`: replacing forbidden characters is stated one character at a time. The contents of the host's `FORBIDDEN_CHARS` pattern, and whether it replaces a run of forbidden characters with a single `_`, are not part of this model.
- `Parsers.PerfPublishes`: perf field values are text, and `result` is an integer. Other JSON value kinds are not modelled.
- `Parsers.PerfPublishes`: an empty `lines` list stops after `result`, where reading `lines[0].message` throws. A missing `lines` member throws at the same point and is not modelled separately. The parsers are called without `await` (main.js:536, 550), so the throw is an unhandled rejection. The modelled poll goes on after it, which matches the source only if the process survives that rejection.
- `for ... in` visits keys in the object's own order. The model takes that order as the order of a sequence.
- `Config.ValidateConfig`: a missing member of a device entry reads as `""` or `false`. A missing `devs` list, which the source replaces with `[]`, is modelled as an empty array.
- `Config.ValidateConfig`: it computes the corrected verdict. The loop as written also rejects every list in which an active device is named after an inherited key such as `constructor`, `toString` or `__proto__`. `Config.AsWrittenIffNoInheritedName` states that difference exactly.
- `Config.TimingText`: `Secs` holds only safe integers. A stored number that is a fraction, or has a magnitude of 2^53 or more, is represented as `Text` of its JavaScript `String` form. For 1e21 that is `Text("1e+21")`. Both tests of `validateConfig` read that form, so they behave as in the source.
- `Setup.ContextOf`: `ipPort` is text, including the default `8443`, which the source stores as a number. The URL text is the same either way.
- `NsClient.Adapter.SetupContexts` requires what `validateConfig` guarantees: the timings of every active entry are numbers. `NsClient.Adapter.OnReady` calls it only in that state.
- `NsClient.Adapter.SetupContexts`: the pollTimer field is not modelled, because no timers are.

## Findings

| source | as written | input that shows it | evidently intended | confidence | as-written member | corrected member |
|---|---|---|---|---|---|---|
| main.js:650-671 | the names already seen are kept in a plain object `{}`, and `chkDevNames[dev.devName]` is truthy for keys it inherits from `Object.prototype` | one active, well-formed device named `constructor` (also `toString`, `valueOf`, `__proto__`, …) is reported as a duplicate, so the configuration is rejected | a name is a duplicate only when an earlier active device used it | not executed | Config.ConfigValidAsWritten, Config.AsWrittenIffNoInheritedName, Config.ConstructorRejected | Config.ConfigValid, Config.ValidateConfig |
