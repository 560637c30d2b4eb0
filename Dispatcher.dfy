/** `main` of the reachability script: choose an action from the command
    line, wire the id file to it, and save the file only after `create`. */
module Dispatcher {
  import opened Wrappers
  import opened IdStore
  import opened Atlas
  import opened Submitter
  import opened DnsReducer
  import opened TraceReducer

  /** The countries the script measures from. */
  const Countries: seq<Country> := ["UZ", "UA", "TM", "TJ", "RU", "LV", "KZ", "KG", "GE", "EE", "BY", "AZ", "AM"]

  function LowerChar(c: char): char
  {
    if 'A' <= c <= 'Z' then (c as int - 'A' as int + 'a' as int) as char else c
  }

  /** `str.lower()` on the ASCII letters. */
  function ToLower(s: string): string
  {
    seq(|s|, i requires 0 <= i < |s| => LowerChar(s[i]))
  }

  datatype Command = Usage | Create | LoadRtt | LoadTrace | Invalid(mode: string)

  /** The branch `main` takes for `sys.argv` (program name first). */
  function ParseCommand(argv: seq<string>): (c: Command)
    ensures c.Usage? <==> |argv| < 2
    ensures c == Create <==> |argv| >= 2 && ToLower(argv[1]) == "create"
    ensures c == LoadRtt <==> |argv| >= 2 && ToLower(argv[1]) == "load-rtt"
    ensures c == LoadTrace <==> |argv| >= 2 && ToLower(argv[1]) == "load-trace"
    ensures c.Invalid? ==> c.mode == ToLower(argv[1])
  {
    if |argv| < 2 then Usage
    else
      var mode := ToLower(argv[1]);
      if mode == "create" then Create
      else if mode == "load-rtt" then LoadRtt
      else if mode == "load-trace" then LoadTrace
      else Invalid(mode)
  }

  /** What one invocation does: its exit code, the id file afterwards, the
      creation calls it made, and the report lines it printed. */
  datatype Outcome = Outcome(exitCode: int, store: StoredFile<IdMap>, submissions: seq<Submission>,
                             report: seq<SummaryLine>)

  /** `main`. A parsed JSON object never repeats a key, so a stored dict has
      distinct keys; the run keeps it so, exits with 0 or 1, and only
      `create` calls the platform's creation endpoint or writes the file. */
  function RunCommand(argv: seq<string>, store: StoredFile<IdMap>, create: CreateOracle,
                      fetchDns: int -> Fetch<DnsResult>, fetchTrace: int -> Fetch<TraceResult>): (o: Outcome)
    requires store.Holds? ==> DistinctKeys(store.content)
    ensures o.exitCode == 0 || o.exitCode == 1
    ensures o.store != store ==> ParseCommand(argv) == Create
    ensures o.submissions != [] ==> ParseCommand(argv) == Create
    ensures o.report != [] ==> ParseCommand(argv) in [LoadRtt, LoadTrace]
    ensures o.store.Holds? ==> DistinctKeys(o.store.content)
  {
    match ParseCommand(argv)
    case Usage => Outcome(0, store, [], [])
    case Invalid(_) => Outcome(1, store, [], [])
    case Create =>
      (match LoadIds(store)
       case Fatal(code) => Outcome(code, store, [], [])
       case Loaded(ids) =>
         var r := CreateRun(Countries, ids, create);
         CreateRunKeepsDistinct(Countries, ids, create);
         Outcome(0, SaveIds(r.ids), r.log, []))
    case LoadRtt =>
      (match LoadIds(store)
       case Fatal(code) => Outcome(code, store, [], [])
       case Loaded(ids) => Outcome(0, store, [], DnsReport(ids, fetchDns)))
    case LoadTrace =>
      (match LoadIds(store)
       case Fatal(code) => Outcome(code, store, [], [])
       case Loaded(ids) =>
         match TraceReport(ids, fetchTrace)
         case Completed(lines) => Outcome(0, store, [], lines)
         case Crashed(lines, _) => Outcome(1, store, [], lines))
  }

  /** No argument: usage, exit 0, nothing loaded, called or written. */
  lemma UsageExitsZero(argv: seq<string>, store: StoredFile<IdMap>, create: CreateOracle,
                       fetchDns: int -> Fetch<DnsResult>, fetchTrace: int -> Fetch<TraceResult>)
    requires |argv| < 2
    requires store.Holds? ==> DistinctKeys(store.content)
    ensures RunCommand(argv, store, create, fetchDns, fetchTrace) == Outcome(0, store, [], [])
  {
  }

  /** An unknown mode: exit 1, and no platform call, no output, no write. */
  lemma UnknownModeExitsOne(argv: seq<string>, store: StoredFile<IdMap>, create: CreateOracle,
                            fetchDns: int -> Fetch<DnsResult>, fetchTrace: int -> Fetch<TraceResult>)
    requires |argv| >= 2
    requires ToLower(argv[1]) !in ["create", "load-rtt", "load-trace"]
    requires store.Holds? ==> DistinctKeys(store.content)
    ensures RunCommand(argv, store, create, fetchDns, fetchTrace) == Outcome(1, store, [], [])
  {
    assert ParseCommand(argv).Invalid?;
  }

  /** `bogus` is such a mode. */
  lemma BogusModeExitsOne(store: StoredFile<IdMap>, create: CreateOracle,
                          fetchDns: int -> Fetch<DnsResult>, fetchTrace: int -> Fetch<TraceResult>)
    requires store.Holds? ==> DistinctKeys(store.content)
    ensures RunCommand(["root-reachability.py", "bogus"], store, create, fetchDns, fetchTrace)
            == Outcome(1, store, [], [])
  {
    var argv := ["root-reachability.py", "bogus"];
    assert ToLower(argv[1]) == "bogus";
    UnknownModeExitsOne(argv, store, create, fetchDns, fetchTrace);
  }

  /** Upper- and mixed-case spellings select the same modes and behave as
      the lower-case ones. */
  lemma UpperCaseModes(store: StoredFile<IdMap>, create: CreateOracle,
                       fetchDns: int -> Fetch<DnsResult>, fetchTrace: int -> Fetch<TraceResult>)
    requires store.Holds? ==> DistinctKeys(store.content)
    ensures ParseCommand(["root-reachability.py", "CREATE"]) == Create
    ensures ParseCommand(["root-reachability.py", "Load-RTT"]) == LoadRtt
    ensures ParseCommand(["root-reachability.py", "LOAD-Trace"]) == LoadTrace
    ensures RunCommand(["root-reachability.py", "CREATE"], store, create, fetchDns, fetchTrace)
            == RunCommand(["root-reachability.py", "create"], store, create, fetchDns, fetchTrace)
  {
    assert ToLower("CREATE") == "create";
    assert ToLower("Load-RTT") == "load-rtt";
    assert ToLower("LOAD-Trace") == "load-trace";
    assert ToLower("create") == "create";
  }

  /** Modes are matched after lower-casing, so "CREATE" and "create" do the same. */
  lemma ModeIsCaseInsensitive(argv: seq<string>, store: StoredFile<IdMap>, create: CreateOracle,
                              fetchDns: int -> Fetch<DnsResult>, fetchTrace: int -> Fetch<TraceResult>)
    requires |argv| >= 2
    requires store.Holds? ==> DistinctKeys(store.content)
    ensures RunCommand(argv[1 := ToLower(argv[1])], store, create, fetchDns, fetchTrace)
            == RunCommand(argv, store, create, fetchDns, fetchTrace)
  {
    var argv' := argv[1 := ToLower(argv[1])];
    assert ToLower(argv'[1]) == ToLower(argv[1]);
  }

  /** A malformed id file ends every mode that loads it with exit 1, before
      any platform call and without writing. */
  lemma CorruptStoreIsFatal(argv: seq<string>, create: CreateOracle,
                            fetchDns: int -> Fetch<DnsResult>, fetchTrace: int -> Fetch<TraceResult>)
    requires ParseCommand(argv) in [Create, LoadRtt, LoadTrace]
    ensures RunCommand(argv, Corrupt, create, fetchDns, fetchTrace) == Outcome(1, Corrupt, [], [])
  {
  }

  /** Only `create` writes the id file; it writes back exactly the dict
      `create_all` returned, and that dict loads back unchanged. */
  lemma OnlyCreateWrites(argv: seq<string>, store: StoredFile<IdMap>, create: CreateOracle,
                         fetchDns: int -> Fetch<DnsResult>, fetchTrace: int -> Fetch<TraceResult>, o: Outcome)
    requires store.Holds? ==> DistinctKeys(store.content)
    requires o == RunCommand(argv, store, create, fetchDns, fetchTrace)
    ensures ParseCommand(argv) != Create ==> o.store == store && o.submissions == []
    ensures ParseCommand(argv) == Create && LoadIds(store).Loaded? ==>
      o.exitCode == 0 &&
      o.store == Holds(CreateRun(Countries, LoadIds(store).value, create).ids) &&
      o.submissions == CreateRun(Countries, LoadIds(store).value, create).log &&
      LoadIds(o.store) == Loaded(CreateRun(Countries, LoadIds(store).value, create).ids)
  {
  }

  /** `load-rtt` on a file that loads as `ids` (a missing file loads as the
      empty dict) exits 0 and prints, in dict order and at most one per
      entry, a line for exactly the sources whose DNS id (the second id of
      the pair) could be fetched, each summarising those results. */
  lemma LoadRttReport(argv: seq<string>, store: StoredFile<IdMap>, ids: IdMap, create: CreateOracle,
                      fetchDns: int -> Fetch<DnsResult>, fetchTrace: int -> Fetch<TraceResult>,
                      o: Outcome, line: SummaryLine)
    requires ParseCommand(argv) == LoadRtt
    requires LoadIds(store) == Loaded(ids) && (store.Holds? ==> DistinctKeys(store.content))
    requires o == RunCommand(argv, store, create, fetchDns, fetchTrace)
    ensures o.exitCode == 0 && o.store == store && o.submissions == []
    ensures o.report == DnsReport(ids, fetchDns)
    ensures |o.report| <= |ids|
    ensures line in o.report <==>
      exists i :: 0 <= i < |ids| && fetchDns(ids[i].1.dns).Fetched? &&
        line == DnsSummary(ids[i].0, fetchDns(ids[i].1.dns).results)
  {
    DnsReportLines(ids, fetchDns, line);
  }

  /** `load-trace` on a file that loads as `ids` (a missing file loads as
      the empty dict) exits 1 exactly when some fetched source (by its
      traceroute id, the first of the pair) has no record with a hop list;
      otherwise it exits 0 having printed a line for exactly the fetched
      sources, each summarising those results. */
  lemma LoadTraceReport(argv: seq<string>, store: StoredFile<IdMap>, ids: IdMap, create: CreateOracle,
                        fetchDns: int -> Fetch<DnsResult>, fetchTrace: int -> Fetch<TraceResult>,
                        o: Outcome, line: SummaryLine)
    requires ParseCommand(argv) == LoadTrace
    requires LoadIds(store) == Loaded(ids) && (store.Holds? ==> DistinctKeys(store.content))
    requires o == RunCommand(argv, store, create, fetchDns, fetchTrace)
    ensures o.store == store && o.submissions == [] && |o.report| <= |ids|
    ensures o.report == TraceReport(ids, fetchTrace).lines
    ensures o.exitCode == 1 <==>
      exists i :: 0 <= i < |ids| && fetchTrace(ids[i].1.traceroute).Fetched? &&
        |HopCounts(fetchTrace(ids[i].1.traceroute).results)| == 0
    ensures o.exitCode == 0 ==>
      (line in o.report <==>
        exists i :: 0 <= i < |ids| && fetchTrace(ids[i].1.traceroute).Fetched? &&
          TraceSummary(ids[i].0, fetchTrace(ids[i].1.traceroute).results) == Some(line))
  {
    TraceReportCrash(ids, fetchTrace);
    if TraceReport(ids, fetchTrace).Completed? {
      TraceReportLines(ids, fetchTrace, line);
    }
  }

  /** A load mode without an id file reads the empty dict: it exits 0 and
      prints no line, and the file stays missing. */
  lemma MissingFileReportsNothing(argv: seq<string>, create: CreateOracle,
                                  fetchDns: int -> Fetch<DnsResult>, fetchTrace: int -> Fetch<TraceResult>)
    requires ParseCommand(argv) in [LoadRtt, LoadTrace]
    ensures RunCommand(argv, Missing, create, fetchDns, fetchTrace) == Outcome(0, Missing, [], [])
  {
  }

  /** Each mode consults only its own platform calls: changing the creation
      oracle matters only to `create`, the DNS results only to `load-rtt`
      and the traceroute results only to `load-trace`. */
  lemma ModesUseOwnCalls(argv: seq<string>, store: StoredFile<IdMap>,
                         create: CreateOracle, create': CreateOracle,
                         fetchDns: int -> Fetch<DnsResult>, fetchDns': int -> Fetch<DnsResult>,
                         fetchTrace: int -> Fetch<TraceResult>, fetchTrace': int -> Fetch<TraceResult>)
    requires store.Holds? ==> DistinctKeys(store.content)
    ensures ParseCommand(argv) != Create ==>
      RunCommand(argv, store, create, fetchDns, fetchTrace) == RunCommand(argv, store, create', fetchDns, fetchTrace)
    ensures ParseCommand(argv) != LoadRtt ==>
      RunCommand(argv, store, create, fetchDns, fetchTrace) == RunCommand(argv, store, create, fetchDns', fetchTrace)
    ensures ParseCommand(argv) != LoadTrace ==>
      RunCommand(argv, store, create, fetchDns, fetchTrace) == RunCommand(argv, store, create, fetchDns, fetchTrace')
  {
  }

  /** Running `create` again on the file the first run saved submits a
      country exactly when the first run submitted it and every one of those
      calls failed; when every country got its pair, the second run calls
      nothing and rewrites the same content. */
  lemma CreateTwice(argv: seq<string>, store: StoredFile<IdMap>, create: CreateOracle, create2: CreateOracle,
                    fetchDns: int -> Fetch<DnsResult>, fetchTrace: int -> Fetch<TraceResult>,
                    o1: Outcome, o2: Outcome)
    requires ParseCommand(argv) == Create && LoadIds(store).Loaded?
    requires store.Holds? ==> DistinctKeys(store.content)
    requires o1 == RunCommand(argv, store, create, fetchDns, fetchTrace)
    requires o2 == RunCommand(argv, o1.store, create2, fetchDns, fetchTrace)
    ensures forall cc :: Submitted(o2.submissions, cc) <==>
      Submitted(o1.submissions, cc) && AllCallsFailed(o1.submissions, cc)
    ensures (forall k :: 0 <= k < |Countries| ==> Contains(o1.store.content, Countries[k])) ==>
      o2.submissions == [] && o2.store == o1.store
  {
    var ids := LoadIds(store).value;
    var r1 := CreateRun(Countries, ids, create);
    var r2 := CreateRun(Countries, r1.ids, create2);
    OnlyCreateWrites(argv, store, create, fetchDns, fetchTrace, o1);
    OnlyCreateWrites(argv, o1.store, create2, fetchDns, fetchTrace, o2);
    CreateRerunRetriesExactlyFailed(Countries, ids, create, r1, create2, r2);
    if forall k :: 0 <= k < |Countries| ==> Contains(r1.ids, Countries[k]) {
      CreateRunIdempotent(Countries, r1.ids, create2);
    }
  }
}
