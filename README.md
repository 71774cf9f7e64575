# NetBox network scanner — a verified model

This project models the core of a network scanner that keeps an IP address
inventory in sync with the network. The inventory is a NetBox IPAM store.

- **Probing** (`Probe`) asks three things about one host:
  - whether it answers `fping` (`/usr/sbin/fping`, falling back to `/usr/bin/fping`);
  - its MAC address from the neighbour table (`ip neigh show` at `/usr/sbin/ip`, then `/sbin/ip`);
  - its reverse DNS name.
- **Reconciliation** (`Inventory`) is the heart of `scan_ip`. It looks up the host's record, first by `ip/32` and then by host. It then decides on exactly one update, one create, or no write.
- **Dispatch** (`Dispatch`) covers `scan_prefix`, `fetch_enabled_prefixes` and `run_auto_scan`:
  - `scan_prefix` feeds the hosts of a prefix to a thread pool through a rolling window of `max_workers` scans in flight;
  - `fetch_enabled_prefixes` asks the store for scan-enabled prefixes, once with a boolean filter and once with a string filter;
  - `run_auto_scan` scans those prefixes one after another.
- **The HTTP API** (`Api`) has one authorisation gate:
  - an allowed caller address is checked first, then the API key;
  - inputs are sanitised to `[0-9A-Fa-f.:/-]`;
  - the scan endpoints check in this order: 415 for a non-JSON request, then 400 for an invalid target, then 202 with the scan queued.
- **Logging setup** (`LoggingSetup`):
  - `_coerce_level` turns the configured level into a number;
  - `setup_logger` configures a named logger once. It attaches one rotating file handler, stops propagation, and holds the HTTP-client loggers at WARNING or above.

Supporting modules:
- `Text` holds the Python string operations the code relies on: `isspace`, `splitlines`, `in`/`find`, `split(sep)`, `split()`, `strip` and `upper`. Each is stated as Python defines it, except that `upper` maps only the ASCII letters (see "Left out").
- `Wrappers` holds `Option` and `Attempted`. An `Attempted` is a result together with the external calls made, in order.

External effects are inputs:
- A `ToolRun` says whether a binary was missing, raised, or exited with a status and some output.
- The reverse DNS answer is an `Option`.
- The inventory is a sequence of records in listing order. A write is applied to it by `Inventory.Apply`, which appends a created record at the end (see "Left out").
- Address parsing (`ipaddress`) is a predicate passed in.

Two consequences of the code are worth stating:
- scanner.py:148 always puts `last_scan` in the update, so the `changed` test at scanner.py:158 always holds. An existing record is therefore updated on every scan (`Inventory.ExistingRecordAlwaysUpdated`).
- Hosts of IPv6 prefixes are still looked up and created under `ip/32`, as scanner.py:135 and scanner.py:166 do (`Inventory.HostKey`).

## Model

| member | source | states |
|---|---|---|
| Text.Find | scanner.py:88 | `find` gives the first position where the pattern occurs, and None exactly when it occurs nowhere |
| Text.BeforeFirst | api.py:23 | `split(sep)[0]` is a prefix of the text without `sep`; when `sep` occurs it ends exactly at the first occurrence, otherwise it is the whole text |
| Text.SecondField | scanner.py:89 | `split("lladdr")[1]` has no "lladdr", starts right after the first "lladdr", and ends at the second one or at the end of the line |
| Text.FieldAt | scanner.py:89 | the text from a position up to the next separator sits at that position and ends at the separator or at the end |
| Text.FirstToken | scanner.py:89 | `split()[0]` is absent exactly for all-whitespace text; otherwise it is the first maximal non-space run |
| Text.Strip | api.py:23 | `strip()` is empty exactly for all-whitespace text; otherwise it is the piece between the leading and trailing whitespace |
| Text.Upper | logging_setup.py:19 | `upper()` on ASCII letters: each character is mapped on its own, lower-case ASCII letters to upper case, all others unchanged |
| Text.SplitLines | scanner.py:87 | `splitlines()` gives no lines exactly for empty text, and no line holds a line boundary |
| Text.SplitLinesRebuildsText | scanner.py:87 | the lines, each followed by its boundary ("\r\n" counting as one, the last line possibly by the end of the text), join back into the text |
| Text.SplitsTextUnique | scanner.py:87 | any cut of the text into boundary-free lines and boundaries that joins back to it, keeps "\r\n" together and ends in no empty line is exactly `splitlines()` |
| Text.LinesOccurInText | scanner.py:87 | every line `splitlines()` yields is a piece of the text |
| Probe.IsPingable | scanner.py:58-80 | reachable iff the first fping exits 0, or the first is missing and the fallback exits 0; the fallback is tried only when the first binary is missing |
| Probe.FirstLladdrAt | scanner.py:87-89 | the first line mentioning "lladdr" decides the MAC address |
| Probe.LladdrToken | scanner.py:89 | `split()[0]` of the text after "lladdr" is its first whitespace-free word; it raises exactly when that text is all whitespace |
| Probe.FirstLladdr | scanner.py:87-89 | a MAC read from the lines is non-empty and has no whitespace; lines that never mention "lladdr" give none |
| Probe.ParseNeighbours | scanner.py:86-89 | a MAC read from the output is non-empty and has no whitespace; empty output gives none |
| Probe.NoLladdrNoMac | scanner.py:87-102 | output that nowhere mentions "lladdr" gives no MAC address |
| Probe.FirstLladdrShape | scanner.py:88-89 | a MAC read from the lines is a non-empty word of one line, without whitespace or "lladdr" |
| Probe.NeighbourMacShape | scanner.py:86-89 | a MAC read from the neighbour table is a non-empty word of the output, without whitespace or "lladdr" |
| Probe.ReadNeighbours | scanner.py:87-89 | the loop returning at the first "lladdr" line computes `ParseNeighbours` |
| Probe.MacLookup | scanner.py:83-102 | `/sbin/ip` is tried only when `/usr/sbin/ip` is missing; the MAC is what the neighbour lines of the first tool to exit 0 give; a nonzero exit or an error of the first tool gives None, and so does a failing fallback |
| Probe.GetMac | scanner.py:83-102 | the step-by-step lookup returns what `MacLookup` specifies, with the same calls |
| Probe.ProbeHost | scanner.py:128-130 | DNS and MAC are looked up only for a host that answered ping; an unreachable host has neither and makes only fping calls |
| Probe.UnreachableIgnoresLookups | scanner.py:129-130 | for an unreachable host, DNS and neighbour answers make no difference |
| Inventory.Locate | scanner.py:134-139 | the lookup is ambiguous exactly when several records hold `ip/32`; a found record holds `ip/32` or has host `ip`; absent means neither filter selects anything |
| Inventory.Changes | scanner.py:142-156 | the update always stamps `last_scan` with now, carries only the four custom fields, and carries a DNS name only when one resolved and differs |
| Inventory.NewRecord | scanner.py:165-175 | the payload holds exactly the four custom fields, Online, both stamps at now, and a DNS name exactly when one resolved |
| Inventory.Reconcile | scanner.py:134-177 | an ambiguous lookup fails; a found record gets the update `Changes` computes; with no record, a host that answered is created under `ip/32` and one that did not gets no write |
| Inventory.FilterStep | scanner.py:138 | considering one more record extends the selection by its position exactly when its address matches |
| Inventory.Filter | scanner.py:138 | the filter returns exactly the matching positions, in listing order |
| Inventory.LookupOrder | scanner.py:134-139 | Ambiguous iff two records hold `ip/32`; otherwise found is the unique `ip/32` record, or, if none exists, the first record whose host is `ip`; Absent iff neither exists |
| Inventory.ExactMatchesAmbiguous | scanner.py:135 | when the `ip/32` lookup sees more than one match, two records hold that address |
| Inventory.ExactMatchUnique | scanner.py:135 | when the `ip/32` lookup sees one match, no other record holds that address |
| Inventory.NoExactMatch | scanner.py:137 | an empty `ip/32` lookup means no record holds that address |
| Inventory.FirstHostMatch | scanner.py:116-118 | `_first_or_none` of the host filter is the first record whose host is `ip`; none means no record has that host |
| Inventory.ExistingRecordAlwaysUpdated | scanner.py:141-160 | a found record always gets one update to itself, stamping `last_scan` with now |
| Inventory.UpdateCarriesOnlyChanges | scanner.py:142-156 | the update carries reachability iff it changed, `last_online` iff pinged, MAC/DNS iff a non-empty value differs, and no other field |
| Inventory.UnreachableWithoutRecordWritesNothing | scanner.py:163-164 | no record and no answer: no write |
| Inventory.ReachableWithoutRecordCreatesOne | scanner.py:164-177 | no record and an answer: one create of `ip/32`, Online, both stamps, `mac or ""`, DNS only when resolved |
| Inventory.FilterSeesAddressesOnly | scanner.py:138 | lookups depend on record addresses only |
| Inventory.FilterAfterAppend | scanner.py:177 | a created record, appended at the end of the model's store, comes last in every filter that selects it |
| Inventory.MergeReflectsProbe | scanner.py:142-160 | a record merged with its update agrees with the probe |
| Inventory.UpdateReflectsProbe | scanner.py:141-160 | after an update the same record is found again, agrees with the probe, and no other record changed |
| Inventory.CreateReflectsProbe | scanner.py:164-177 | after a create the new record is the one found, at the end, and agrees with the probe |
| Inventory.AppendedRecordFound | scanner.py:166-177 | a record created under `ip/32` where none existed is the one the next lookup finds |
| Inventory.CreatedReflectsProbe | scanner.py:165-175 | the created payload agrees with the probe of a host that answered |
| Inventory.MergeKeepsUncarried | scanner.py:142-156 | an update keeps the address, and every field it does not carry, as it was |
| Inventory.ReconcileReflectsProbe | scanner.py:121-181 | after any write the lookup finds a record that agrees with the probe; other records, and fields the update does not carry, are unchanged |
| Inventory.ReflectedRecordGetsTimestampsOnly | scanner.py:145-156 | a record already agreeing with the probe is sent only `last_scan` (and `last_online` if pinged) |
| Inventory.RescanRefreshesTimestampsOnly | scanner.py:121-181 | rescanning with the same findings after a write only refreshes the timestamps |
| Inventory.UpdatesFor | scanner.py:142-156 | building `updates` entry by entry yields `Changes` and always holds `last_scan` |
| Inventory.ScanIp | scanner.py:121-181 | the step-by-step scan makes the probe's calls and issues the write `Reconcile` specifies |
| Dispatch.MaxIpWorkers | scanner.py:39 | an unset (zero) setting means 32, any other is kept; the result is positive iff the setting is non-negative |
| Dispatch.PoolRun.constructor | scanner.py:195 | a fresh pool has nothing submitted, in flight or finished |
| Dispatch.PoolRun.Submit | scanner.py:201 | the next host is submitted and joins the scans in flight |
| Dispatch.PoolRun.AwaitAny | scanner.py:199-200 | one in-flight scan, not chosen in advance, finishes and leaves the window |
| Dispatch.PoolRun.FillWindow | scanner.py:197 | the first min(max_workers, hosts) hosts are submitted, the k-th finding k+1 in flight |
| Dispatch.PoolRun.Refill | scanner.py:198-201 | every remaining host is submitted after one scan finishes, so the window stays at `max_workers` |
| Dispatch.PoolRun.Drain | scanner.py:202-203 | every scan still in flight finishes; nothing else changes |
| Dispatch.PoolRun.Run | scanner.py:195-203 | every host is submitted once in order, all scans finish, never more than `max_workers` are in flight, and the k-th submission finds min(k+1, max_workers) in flight |
| Dispatch.ScanPrefix | scanner.py:184-205 | an invalid prefix scans nothing; a non-positive pool size raises; otherwise every host is submitted in order and completes exactly once within the window |
| Dispatch.FetchEnabledPrefixes | scanner.py:210-232 | the boolean filter's non-empty answer wins; otherwise the string filter's; otherwise none; the string filter is asked only when the boolean one gave nothing |
| Dispatch.RunAutoScan | scanner.py:235-250 | the enabled prefixes are scanned in order, each fully; a pool error stops the run |
| Api.KeepAllowed | api.py:38 | the sanitised text holds only `[0-9A-Fa-f.:/-]` and is no longer than the input |
| Api.Sanitize | api.py:37-38 | None and "" give ""; a string gives its allowed characters; only a truthy non-string raises |
| Api.SanitizedIsSubsequence | api.py:38 | the sanitised text is the input with characters deleted, order kept |
| Api.SanitizeKeepsEveryAllowed | api.py:38 | every allowed character is kept as often as it occurs, every other dropped |
| Api.SanitizeKeepsCleanText | api.py:38 | text of allowed characters only is unchanged |
| Api.SanitizeIdempotent | api.py:37-38 | sanitising a sanitised value changes nothing |
| Api.FirstHop | api.py:23 | the first hop has no comma and no surrounding whitespace |
| Api.FirstCommaOrEnd | api.py:23 | the end of the first element of `split(",")`: the first comma, or the end when there is none |
| Api.FirstHopIsTrimmedFirstElement | api.py:23 | the first hop is the first comma-separated element with its surrounding whitespace removed; it is empty exactly when that element is all whitespace |
| Api.CallerSource | api.py:23 | X-Forwarded-For wins over the peer address; with neither, the request fails |
| Api.Authorize | api.py:20-34 | a request with no caller address fails with 500; 403 exactly when an allowed source is set and the caller differs; it passes exactly when the source passes and the key matches; any other answer is 401 |
| Api.BodyField | api.py:54-55 | `(get_json(silent=True) or {}).get(name, "")`: the field when a JSON object holds it, "" for any falsy or other body, and raising for a truthy non-object |
| Api.Endpoint | api.py:47-84 | a job is queued exactly when the answer is 202 |
| Api.ForeignSourceForbidden | api.py:24-26 | with an allowed source set, any other caller gets 403 whatever key it sends |
| Api.KeyCheckedAfterSource | api.py:24-31 | 401 iff the source passed and the key differs; an empty allowed source never gives 403 |
| Api.ContentTypeCheckedFirst | api.py:51-52 | an authorised non-JSON request gets 415 before its body is read |
| Api.ValidationDecidesQueueing | api.py:54-64 | an invalid sanitised target gets 400 and queues nothing; a valid one gets 202 and queues exactly that target |
| Api.QueuedTargetsAreClean | api.py:55-62 | anything queued passed validation for its route and holds only allowed characters |
| LoggingSetup.IntCore | logging_setup.py:17 | the text `int()` reads is empty exactly for all-blank text; otherwise it starts and ends with a non-blank character and only blanks surround it |
| LoggingSetup.ParseInt | logging_setup.py:17 | `int()` succeeds exactly when the text between the whitespace is an optional sign and a decimal literal of at most 4300 digits, and gives its signed value; it accepts only text of whitespace, signs, digits and underscores |
| LoggingSetup.DigitCount | logging_setup.py:17 | the digits `int()` counts against its limit are at most the literal's length |
| LoggingSetup.DigitCountOfDigits | logging_setup.py:17 | a literal of digits only counts every character |
| LoggingSetup.ParseIntReads | logging_setup.py:17 | whitespace-padded, optionally signed decimal text with underscores between digits reads as its value within 4300 digits, and raises beyond |
| LoggingSetup.ParseIntUnpadded | logging_setup.py:17 | unpadded signed decimal text reads as its value within the digit limit, and raises beyond |
| LoggingSetup.SignedCore | logging_setup.py:17 | text whose core is a sign and a literal reads as the signed literal within the digit limit, and raises beyond |
| LoggingSetup.PaddedCore | logging_setup.py:17 | padding text with whitespace leaves it as what `int()` reads |
| LoggingSetup.SeparatorIsNotPadding | logging_setup.py:17-19 | `int()` does not skip U+001C before a digit, so that text names no level and coerces to INFO |
| LoggingSetup.LetterIsNotNumeric | logging_setup.py:17-19 | text starting with a letter makes `int()` raise, so the name lookup decides |
| LoggingSetup.LevelByName | logging_setup.py:19 | exactly the eight level names of the logging module are found, each giving a standard level |
| LoggingSetup.CoerceLevel | logging_setup.py:13-19 | an int is kept; text `int()` reads gives that number; other text gives the level its upper-case spelling names, and INFO when it names none |
| LoggingSetup.NamedLevelsCoerce | logging_setup.py:13-19 | each level name in any letter case coerces to its level: CRITICAL and FATAL 50, ERROR 40, WARNING and WARN 30, INFO 20, DEBUG 10, NOTSET 0 |
| LoggingSetup.Digits | logging_setup.py:17 | `str(n)` of a natural number is a non-empty run of digits |
| LoggingSetup.DigitsRoundTrip | logging_setup.py:17 | `int` reads back the digits `str` wrote |
| LoggingSetup.ParseDecimal | logging_setup.py:17 | `int(str(n)) == n` for n of at most 4300 digits; `int(str(n))` raises for longer n |
| LoggingSetup.NumericTextRoundTrip | logging_setup.py:13-19 | a level given as the text of a number of at most 4300 digits coerces to that number; a longer one makes `int()` raise, names no level, and gives INFO |
| LoggingSetup.UpperKeepsNumeric | logging_setup.py:17-19 | numeric text is left unchanged by `upper()` |
| LoggingSetup.LevelTextCaseInsensitive | logging_setup.py:16-19 | level text coerces the same in any letter case |
| LoggingSetup.SetLevels | logging_setup.py:58-59 | the noisy loggers get the level; every other logger is unchanged, and no logger's handlers or propagation change |
| LoggingSetup.LoggerName | logging_setup.py:40 | the name given unless it is missing or empty, then "netbox_scanner"; never empty |
| LoggingSetup.Setup | logging_setup.py:39-61 | afterwards the named logger has a handler; an already configured logger leaves the registry as it was; otherwise it gets exactly the one handler at the coerced level and stops propagating; no other logger's handlers change |
| LoggingSetup.SetupEffect | logging_setup.py:39-61 | a configured logger is left as it is. Otherwise the named logger gets exactly one handler at the coerced level and no propagation; each noisy logger gets max(level, WARNING); nothing else changes |
| LoggingSetup.SetupIdempotent | logging_setup.py:41-42 | a second setup, under any configuration, changes nothing |
| LoggingSetup.Registry.SetupLogger | logging_setup.py:39-61 | the step-by-step setup, including its loop over the noisy loggers, leaves the registry as `Setup` specifies |

## Left out

- Process execution, sockets and the NetBox HTTP client are not run. Their outcomes are inputs (`ToolRun`, `Environment.reverseDns`, the store sequence, `Query`). `get_dns` is exactly its input `reverseDns`.
- Timeouts, retries and transport errors of the store are left out. Only the lookup error the code itself can cause is modelled: several records under `ip/32` make pynetbox's `get` raise, giving `LookupFailed`. A failing `update`/`create` call is logged and changes nothing; the model stops at the write decision.
- Threads are not modelled as concurrency. Scans finish one at a time in an order chosen by `AwaitAny`, and each scan's own write is not interleaved with the others.
- `ipaddress` parsing and host enumeration are given functions (`expand`, `isAddress`, `isNetwork`).
- `log_error`, the logger output, timestamps' formatting and `_ensure_log_path` are left out. The log directory and file are taken to be usable: a `sys.exit` there is not modelled.
- The command-line entry point, `argparse`, the start-up checks of `NETBOX_URL`/`NETBOX_API_TOKEN`, the `/healthz` route and Flask routing are left out. `config.py` values are parameters.
- `int(MAX_CONCURRENT_IP_SCANS or 32)` on a string setting is left out; the setting is taken as an integer.
- LoggingSetup.ParseInt: only ASCII digits are read; Python also reads other Unicode decimal digits. The digit limit is CPython's default of 4300 (Python 3.11 and later, and the 3.7.14, 3.8.14, 3.9.14 and 3.10.7 updates). An interpreter without the limit, or one where `PYTHONINTMAXSTRDIGITS`, `-X int_max_str_digits` or `sys.set_int_max_str_digits` changed it, is not modelled.
- LoggingSetup.CoerceLevel: it inherits `LoggingSetup.ParseInt`'s restrictions. The name lookup knows only the logging level names. Other upper-case attributes of the logging module (such as `BASIC_FORMAT`) are not modelled.
- Text.Upper: only ASCII letters are mapped. Python's `upper()` also maps other letters, some to several characters (`ß` to `SS`) and some to ASCII (`ſ` to `S`), so a level such as `notſet` that Python resolves to NOTSET coerces to INFO here.
- LoggingSetup.Registry.SetupLogger: the handler is a value holding its path, level, sizes and format; the file is not opened.
- Api.Endpoint: Flask's own rejection of oversized bodies (413) is modelled as raised when the body is read, after the content-type check. Other Flask errors are not modelled. A 500 stands for an exception escaping the view.
- Inventory.Apply: a created record is appended at the end of the store. NetBox lists IP addresses ordered by address, not by insertion, so the position is the model's choice. It matters to no lookup: a create happens only when neither query matched anything, so the new record is the only one either query selects (`Inventory.AppendedRecordFound`).
- `_first_or_none` is the first element of the host filter inside `Inventory.Locate`, as characterised by `Inventory.LookupOrder`.
