# RIPE Atlas K-root reachability scripts, modelled in Dafny

The scripts schedule, for each of a fixed list of countries, a paired
one-off measurement on the RIPE Atlas platform: a traceroute and a DNS
`com. NS` query, both from 50 probes in that country to the K-root anchor
`193.0.14.129`. The pair of platform-assigned ids is kept per country in a
JSON file, so that a `create` run never asks again for a country that has
a pair. The `load-rtt` and `load-trace` runs fetch the raw results of those
measurements and print per country the number of usable probes and their
floor-average round-trip time or hop count. A second script prints the
first RDATA of the first answer of every raw DNS result in a file.

Modules, one per component:

- `IdStore` (IdStore.dfy): the id dict as an insertion-ordered association
  list `seq<(Country, Pair)>`, with `Pair(traceroute, dns)`; `load_ids` and
  `save_ids` over an abstract file (`Missing | Corrupt | Holds(content)`).
- `Atlas` (Atlas.dfy): the creation request `create_measurement` builds,
  and the platform as two oracles. Creation is
  `(call number, request) -> Option<Pair>`. Fetching is
  `measurement id -> Fetched(results) | FetchFailed`.
- `Submitter` (Submitter.dfy): `create_all` as a method with a loop,
  proved equal to the left fold `CreateRun`. It returns the updated dict and
  the log of the `create_measurement` calls it made, with their answers.
- `DnsReducer`, `TraceReducer`: `dump_dns` and `dump_trace` as methods with
  nested loops, proved equal to the fold functions `DnsReport` and
  `TraceReport`. The emitted lines are `SummaryLine(cc, count, average)`.
- `Stats`: `sum`, `sum // len`, and its bounds.
- `Dispatcher`: `main` as a function from `argv`, the id file and the
  oracles to an `Outcome`. The outcome holds the exit code, the file
  afterwards, the creation calls and the printed lines.
- `DnsMaxmind`: `dump_dns` of dns-maxmind.py as a pure filter-map, and its
  `main`.

### Where the code decides

Four behaviours of the code that a reader might expect otherwise, each
modelled as the code has it:

- `dump_trace` drops a record whose `result` cannot be measured. The
  `hops = 0` in the handler is never appended, so such a record is not
  counted as zero hops (`TraceSummaryDropsMissing`).
- `dump_trace` guards a failed fetch exactly as `dump_dns` does: the
  source prints nothing.
- `dump_trace` has no guard against a fetched source in which no record
  has a hop list. Then `sum(hop_counts) // len(hop_counts)` raises an
  uncaught ZeroDivisionError, ending the process with status 1 after the
  earlier lines. This is the explicit outcome `Crashed(lines, at)`.
- The only DNS mode is `load-rtt`; there is no `load-dns`.

## Model

| member | source | states |
|---|---|---|
| `IdStore.LoadIds` | root-reachability.py:84-93 | a missing file loads as an empty collection, unparsable content is fatal with exit code 1 and returns nothing, parsed content is returned as is |
| `IdStore.SaveIds` | root-reachability.py:96-108 | the file afterwards holds the whole collection, and `load_ids` reads it back unchanged |
| `Atlas.MeasurementRequest` | root-reachability.py:50-63 | the request lists a traceroute first and a DNS query second, both IPv4 to 193.0.14.129, from one country source of 50 probes, one-off |
| `Submitter.CreateAll` | root-reachability.py:111-131 | the loop computes the fold `CreateRun`; the result is the input dict followed by the successful creations; every input key keeps its pair |
| `Submitter.CreateRunShape` | root-reachability.py:126-131 | the dict after the run is the dict before it with the pairs of the successful calls appended in call order |
| `Submitter.CreateRunAnswers` | root-reachability.py:65-72 | the j-th call records the platform's answer to the j-th request, built for that call's country |
| `Submitter.CreateRunKeys` | root-reachability.py:126-129 | afterwards a country is a key exactly when it was one before or a call for it succeeded; a failed creation leaves it absent |
| `Submitter.CreateRunPreservesEntries` | root-reachability.py:123-131 | every key present before the run maps to the same pair afterwards |
| `Submitter.CreateRunSubmitsOnlyAbsent` | root-reachability.py:123-127 | no call is made for a country present before the run, nor for a country after a call for it succeeded |
| `Submitter.CreateRunAtMostOneSuccess` | root-reachability.py:124-129 | a country repeated in the list is created successfully at most once |
| `Submitter.CreateRunCoversCountries` | root-reachability.py:123-127 | every listed country that was not a key is submitted |
| `Submitter.CreateRunInListOrder` | root-reachability.py:123-129 | calls happen in list order: the j-th call is for the country at an increasing position pos[j] of the list; there are at most as many calls as countries |
| `Submitter.CreateRunCallAt` | root-reachability.py:123-129 | a list position gets a call exactly when its country was not a key before the run and every earlier call for that country failed, so a repeated country is retried at each occurrence until a call succeeds |
| `Submitter.CreateRunKeepsDistinct` | root-reachability.py:129 | a dict with distinct keys keeps distinct keys |
| `Submitter.CreateRunIdempotent` | root-reachability.py:123-125 | when every listed country is a key, the run makes zero calls and returns the dict unchanged |
| `Submitter.CreateRerunSubmitsOnlyFailed` | root-reachability.py:123-129 | a second run over the first run's output submits only countries absent before the first run whose every call in it failed |
| `Submitter.RerunSubmittedBefore` | root-reachability.py:123-129 | a country the second run over the same list submits was submitted by the first run, and all those calls failed |
| `Submitter.RerunRetriesFailed` | root-reachability.py:123-129 | a country the first run submitted with every call failing is submitted again by the second run |
| `Submitter.CreateRerunRetriesExactlyFailed` | root-reachability.py:123-129 | the second run over the same list submits a country if and only if the first submitted it and every one of those calls failed |
| `DnsReducer.DumpDns` | root-reachability.py:134-159 | the nested loops print exactly the lines of `DnsReport`: one per source with a successful fetch of its DNS id, in dict order |
| `DnsReducer.KeptRttsExact` | root-reachability.py:147-153 | a value is kept exactly when it is the rt of some record's result and strictly positive; at most one value per record |
| `DnsReducer.KeptRttsAppend` | root-reachability.py:147-153 | a skipped record does not abort the source: kept values of a concatenation are those of its parts, in order |
| `DnsReducer.DnsSummaryAverage` | root-reachability.py:155-159 | count is the number kept; the average is 0 when none is kept, else `sum // count` and between the least and the greatest kept value |
| `DnsReducer.DnsSummaryExample` | root-reachability.py:147-159 | rt values 10, -1, 20 and a record without rt give count 2 and average 15 |
| `DnsReducer.DnsReportAppend` | root-reachability.py:143-159 | the report follows dict order: report of a concatenation is the concatenation of reports |
| `DnsReducer.DnsReportLines` | root-reachability.py:143-159 | a line is printed exactly for the sources whose DNS id (second of the pair) was fetched, summarising those results; a failed fetch prints nothing |
| `Stats.FloorAverageBounds` | root-reachability.py:156 | `sum(xs) // len(xs)` of a non-empty list lies between its minimum and maximum |
| `TraceReducer.DumpTrace` | root-reachability.py:162-184 | the nested loops compute `TraceReport`, stopping with `Crashed` at the first fetched source that has no hop list |
| `TraceReducer.CrashIsFinal` | root-reachability.py:183 | once the division by zero has ended the run, later entries change nothing |
| `TraceReducer.HopCountsExact` | root-reachability.py:175-181 | a hop count is recorded exactly for each record that has a hop list, equal to its length; records without one are dropped |
| `TraceReducer.HopCountsAppend` | root-reachability.py:175-181 | a dropped record does not abort the source: counts of a concatenation are those of its parts, in order |
| `TraceReducer.TraceSummaryAverage` | root-reachability.py:183-184 | there is a line exactly when some hop count was recorded; its count is their number, its average is `sum // count`, and that lies between the least and greatest count |
| `TraceReducer.TraceSummaryExample` | root-reachability.py:175-184 | hop lists of lengths 3, 4, 5 give count 3 and average 4 |
| `TraceReducer.TraceSummaryDropsMissing` | root-reachability.py:176-181 | lengths 3, missing, 5 give count 2 and average 4: the failed record is not a zero |
| `TraceReducer.TraceReportCrash` | root-reachability.py:171-184 | the run crashes exactly when some source's traceroute id (first of the pair) was fetched with no hop list; it stops at the first such source after printing the lines before it |
| `TraceReducer.TraceReport` | root-reachability.py:171-184 | at most one line per dict entry is printed, and a crash happens at an entry of the dict |
| `TraceReducer.TraceReportLines` | root-reachability.py:171-184 | on a completed run a line is printed exactly for the sources whose traceroute id was fetched, summarising those results |
| `TraceReducer.TraceReportAppend` | root-reachability.py:171-184 | the report follows dict order: a dict completes exactly when both its parts do, and then its lines are those of the first part followed by those of the second |
| `Dispatcher.RunCommand` | root-reachability.py:187-207 | every run exits 0 or 1; only `create` submits or changes the file; only the two load modes print report lines; a dict with distinct keys stays so |
| `Dispatcher.ParseCommand` | root-reachability.py:191-207 | fewer than two argv entries is usage; otherwise the lower-cased mode selects create, load-rtt or load-trace, and anything else is invalid |
| `Dispatcher.UsageExitsZero` | root-reachability.py:191-193 | without a mode: exit 0, no load, no platform call, no write |
| `Dispatcher.UnknownModeExitsOne` | root-reachability.py:205-207 | an unrecognised mode: exit 1, no platform call, no output, file untouched |
| `Dispatcher.BogusModeExitsOne` | root-reachability.py:205-207 | the mode `bogus` exits 1 with no platform call |
| `Dispatcher.ModeIsCaseInsensitive` | root-reachability.py:194 | replacing the mode by its lower-cased form changes nothing |
| `Dispatcher.UpperCaseModes` | root-reachability.py:194-202 | `CREATE`, `Load-RTT` and `LOAD-Trace` select create, load-rtt and load-trace, and `CREATE` behaves exactly as `create` |
| `Dispatcher.CorruptStoreIsFatal` | root-reachability.py:195-204 | every valid mode with an unparsable id file exits 1 before any platform call and without writing |
| `Dispatcher.OnlyCreateWrites` | root-reachability.py:195-204 | only `create` writes the file or submits; after a successful load it exits 0, its calls are those of `create_all`, and it writes exactly the dict `create_all` returned, which loads back unchanged |
| `Dispatcher.LoadRttReport` | root-reachability.py:199-201 | on any file that loads, a missing one included, `load-rtt` exits 0 without writing or submitting, and prints exactly `DnsReport` of the loaded dict: in dict order, at most one line per entry, exactly the summaries of the sources whose DNS id was fetched |
| `Dispatcher.LoadTraceReport` | root-reachability.py:202-204 | on any file that loads, `load-trace` exits 1 exactly when some source's traceroute id was fetched with no hop list; otherwise it exits 0 having printed exactly the summaries of the fetched sources; either way the printed lines are those of `TraceReport`, so a crashed run has printed the lines of the sources before the crashing one |
| `Dispatcher.MissingFileReportsNothing` | root-reachability.py:84-86 | a load mode without an id file reads `{}`, exits 0, prints no line and creates no file |
| `Dispatcher.ModesUseOwnCalls` | root-reachability.py:195-207 | the creation oracle matters only to `create`, the DNS results only to `load-rtt`, the traceroute results only to `load-trace` |
| `Dispatcher.CreateTwice` | root-reachability.py:195-198 | a second `create` run submits a country if and only if the first run submitted it and all those calls failed; if all countries got pairs it calls nothing and rewrites the same file |
| `DnsMaxmind.DumpFirstRdata` | dns-maxmind.py:56-62 | at most one value is printed per record, and each printed value is the first RDATA of some record |
| `DnsMaxmind.FirstRdata` | dns-maxmind.py:58-62 | a value exactly when result, answers, a first answer, its RDATA and a first RDATA all exist, and it is that first RDATA |
| `DnsMaxmind.DumpFirstRdataAppend` | dns-maxmind.py:57-62 | a failing record does not stop the later ones: output of a concatenation is the concatenation of outputs |
| `DnsMaxmind.DumpFirstRdataSingle` | dns-maxmind.py:57-62 | one record prints its first RDATA if the path exists and nothing otherwise |
| `DnsMaxmind.DumpFirstRdataExact` | dns-maxmind.py:57-62 | at most as many values as records; a value is printed exactly when some record yields it |
| `DnsMaxmind.DumpFirstRdataExample` | dns-maxmind.py:58-62 | a missing result, empty answers and empty RDATA print nothing, and a later good record still prints |
| `DnsMaxmind.MaxmindRun` | dns-maxmind.py:65-72 | no argument exits 0; a missing file prints nothing; an unparsable file exits 1; otherwise the extracted values are printed |

## Left out

- RIPE Atlas client calls (`AtlasCreateRequest.create`, `AtlasResultsRequest.create`): network I/O through a library that is not part of this model. They are the creation and fetch oracles. The fetch oracle is a function of the measurement id, so fetching the same id twice in one run gives the same answer.
- `start_time=datetime.utcnow()` and `API_CREATE_KEY`: clock and credential, with no behaviour to verify. They are not in `CreateRequest`.
- JSON parsing and serialisation in `load_ids`/`save_ids`: the file is abstract. `Holds(content)` is what parses, so the save/load round trip holds by construction rather than being proved for a JSON encoder.
- In-place update: `create_all` mutates the caller's dict and also returns it. The model returns the new association list. The only caller rebinds `ids` to that result, so no aliasing is lost.
- Printing: all console text other than the report lines. This covers the header lines, the usage messages (root-reachability.py:192, dns-maxmind.py:67), `invalid parameter:` (root-reachability.py:206), the parse error printed by `load_ids` (root-reachability.py:91), the "already exists", "Created" and "Failed" notes, the traceback of the trace crash, and the `%s, %d, %d` format. Report lines are `SummaryLine` values; the creation notes correspond to the submission log.
- Floating point: Atlas `rt` values are floats, and the `%d` and `//` of floats are not modelled. RTTs are integers.
- Dynamic typing: a record field that is missing, `None`, not an object or an incomparable `rt` is one absent case (`None`); otherwise the model has only list-typed `result` and `RDATA` values and an object-typed id file holding two-id lists. Not modelled:
  - `len(trace)` of a string or object `result` in `dump_trace` (root-reachability.py:178) counts its length; the model has no such record.
  - `RDATA[0]` of a string RDATA in dns-maxmind (dns-maxmind.py:59) prints its first character.
  - dns-maxmind content that is a JSON number, `null`, `true` or `false` makes `for r in ids` (dns-maxmind.py:57) raise, exit 1. Top-level string content iterates its characters and object content its keys; both are strings, which fail `r.get` inside the handler, so nothing is printed, as for records without results.
  - An id file holding valid JSON that is not an object. `load-rtt` and `load-trace` print their header and crash at `ids.items()` (root-reachability.py:143, 171), exit 1. For `create`, there are three cases:
    - A number, `null`, `true` or `false` raises at `cc in ids` (root-reachability.py:124) before any platform call, exit 1, file unchanged.
    - A list or a string, where `cc in ids` is list membership or a substring test, crashes at `ids[cc] = res` (root-reachability.py:129) at the first successful creation, after that measurement was created, exit 1 without saving.
    - A list or a string in which every country is found, or for which every creation fails, never reaches line 129: the run rewrites the same content and exits 0.
  - An id-file element shorter than two ids, where `mid[0]`/`mid[1]` raises outside the handler: a `Pair` always has both ids.
- Duplicate keys: a parsed JSON object never repeats a key, so `RunCommand` and the `Dispatcher` lemmas require a stored dict with distinct keys.
- `str.lower()` is modelled on ASCII letters only. Only U+212A (the Kelvin sign, lowered to `k`) and U+0130 (lowered to `i` followed by a combining dot) lower to text containing ASCII; no mode contains `k` or `i`, so the three mode comparisons are unaffected.
- dns-decoder.py: a wrapper around an external base64 decoder and DNS parser, with no logic of its own. It is not part of this model.
