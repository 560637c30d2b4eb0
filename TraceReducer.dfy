/** `dump_trace` of the reachability script: per country, the number of
    traceroute probes with a hop list and their floor-average hop count. */
module TraceReducer {
  import opened Wrappers
  import opened IdStore
  import opened Atlas
  import opened Stats

  /** One entry of a traceroute's hop list (its contents are never inspected). */
  datatype Hop = Hop(hop: int)

  /** One raw traceroute probe result; its `result` hop list may be absent. */
  datatype TraceResult = TraceResult(result: Option<seq<Hop>>)

  /** `hop_counts` after the loop over a source's results: `len(result)` for
      every record that has a result; a record without one is dropped. */
  function HopCounts(results: seq<TraceResult>): seq<nat>
  {
    if results == [] then []
    else
      var last := results[|results| - 1];
      HopCounts(results[..|results| - 1]) + (if last.result.Some? then [|last.result.value|] else [])
  }

  /** The line printed for a fetched source, or None when no record had a
      hop list: then `sum(hop_counts) // len(hop_counts)` divides by zero. */
  function TraceSummary(cc: Country, results: seq<TraceResult>): Option<SummaryLine>
  {
    var hops := HopCounts(results);
    if |hops| == 0 then None else Some(SummaryLine(cc, |hops|, FloorAverage(hops)))
  }

  /** How `dump_trace` ends: all lines printed, or the ZeroDivisionError
      raised while handling the entry at position `at`, after `lines`. */
  datatype TraceOutcome = Completed(lines: seq<SummaryLine>) | Crashed(lines: seq<SummaryLine>, at: nat)

  /** What `dump_trace` does with a dict: traceroute ids fetched in dict
      order, a source whose fetch fails prints nothing, and the first fetched
      source without any hop list ends the run. */
  function TraceReport(ids: IdMap, fetch: int -> Fetch<TraceResult>): (o: TraceOutcome)
    ensures o.Crashed? ==> o.at < |ids|
    ensures |o.lines| <= |ids|
  {
    if ids == [] then Completed([])
    else
      var prev := TraceReport(ids[..|ids| - 1], fetch);
      var (cc, mid) := ids[|ids| - 1];
      if prev.Crashed? then prev
      else
        match fetch(mid.traceroute)
        case FetchFailed => prev
        case Fetched(results) =>
          match TraceSummary(cc, results)
          case None => Crashed(prev.lines, |ids| - 1)
          case Some(line) => Completed(prev.lines + [line])
  }

  /** `dump_trace(ids)`, returning the lines it prints after its header and
      whether it ended with the division by zero. */
  method DumpTrace(ids: IdMap, fetch: int -> Fetch<TraceResult>) returns (outcome: TraceOutcome)
    ensures outcome == TraceReport(ids, fetch)
  {
    var lines := [];
    for i := 0 to |ids|
      invariant TraceReport(ids[..i], fetch) == Completed(lines)
    {
      assert ids[..i + 1][..i] == ids[..i];
      var (cc, mid) := ids[i];
      var fetched := fetch(mid.traceroute);
      var hopCounts := [];
      if fetched.Fetched? {
        var results := fetched.results;
        for j := 0 to |results|
          invariant hopCounts == HopCounts(results[..j])
        {
          assert results[..j + 1][..j] == results[..j];
          var r := results[j];
          if r.result.Some? {
            hopCounts := hopCounts + [|r.result.value|];
          }
        }
        assert results[..|results|] == results;
        if |hopCounts| == 0 {
          // sum(hop_counts) // len(hop_counts) raises ZeroDivisionError
          CrashIsFinal(ids, i + 1, fetch);
          assert ids[..|ids|] == ids;
          return Crashed(lines, i);
        }
        var average := Sum(hopCounts) / |hopCounts|;
        lines := lines + [SummaryLine(cc, |hopCounts|, average)];
      }
    }
    assert ids[..|ids|] == ids;
    outcome := Completed(lines);
  }

  /** Once an entry has crashed the run, later entries change nothing. */
  lemma {:induction false} CrashIsFinal(ids: IdMap, k: nat, fetch: int -> Fetch<TraceResult>)
    requires k <= |ids| && TraceReport(ids[..k], fetch).Crashed?
    ensures TraceReport(ids, fetch) == TraceReport(ids[..k], fetch)
    decreases |ids|
  {
    if k < |ids| {
      var init := ids[..|ids| - 1];
      assert init[..k] == ids[..k];
      CrashIsFinal(init, k, fetch);
    } else {
      assert ids[..k] == ids;
    }
  }

  /** Exactly the records that have a hop list are counted, by its length. */
  lemma {:induction false} HopCountsExact(results: seq<TraceResult>, h: int)
    ensures |HopCounts(results)| <= |results|
    ensures h in HopCounts(results) <==>
      exists i :: 0 <= i < |results| && results[i].result.Some? && |results[i].result.value| == h
  {
    if results != [] {
      var init := results[..|results| - 1];
      HopCountsExact(init, h);
      if exists i :: 0 <= i < |results| && results[i].result.Some? && |results[i].result.value| == h {
        var i :| 0 <= i < |results| && results[i].result.Some? && |results[i].result.value| == h;
        if i < |init| {
          assert init[i] == results[i];
        }
      }
      if exists i :: 0 <= i < |init| && init[i].result.Some? && |init[i].result.value| == h {
        var i :| 0 <= i < |init| && init[i].result.Some? && |init[i].result.value| == h;
        assert results[i] == init[i];
      }
    }
  }

  /** A dropped record does not abort the source: the hop counts of a
      concatenation are those of its parts, in order. */
  lemma {:induction false} HopCountsAppend(a: seq<TraceResult>, b: seq<TraceResult>)
    ensures HopCounts(a + b) == HopCounts(a) + HopCounts(b)
    decreases |b|
  {
    if b == [] {
      assert a + b == a;
    } else {
      var b' := b[..|b| - 1];
      assert (a + b)[..|a + b| - 1] == a + b';
      assert (a + b)[|a + b| - 1] == b[|b| - 1];
      HopCountsAppend(a, b');
    }
  }

  /** A summary exists exactly when some record had a hop list; its count is
      the number of such records, its average is the floor of their mean,
      and that lies between the least and the greatest hop count. */
  lemma TraceSummaryAverage(cc: Country, results: seq<TraceResult>)
    ensures var hops := HopCounts(results);
      (TraceSummary(cc, results).None? <==> |hops| == 0) &&
      (|hops| > 0 ==> TraceSummary(cc, results).value.country == cc &&
                      TraceSummary(cc, results).value.count == |hops| &&
                      TraceSummary(cc, results).value.average == Sum(hops) / |hops| &&
                      Min(hops) <= TraceSummary(cc, results).value.average <= Max(hops))
  {
    var hops := HopCounts(results);
    if |hops| > 0 {
      FloorAverageBounds(hops);
    }
  }

  /** Hop lists of lengths 3, 4 and 5: three probes, four hops on average. */
  lemma TraceSummaryExample()
    ensures TraceSummary("UA", [TraceResult(Some([Hop(1), Hop(2), Hop(3)])),
                                TraceResult(Some([Hop(1), Hop(2), Hop(3), Hop(4)])),
                                TraceResult(Some([Hop(1), Hop(2), Hop(3), Hop(4), Hop(5)]))])
            == Some(SummaryLine("UA", 3, 4))
  {
    var a := [TraceResult(Some([Hop(1), Hop(2), Hop(3)])),
              TraceResult(Some([Hop(1), Hop(2), Hop(3), Hop(4)])),
              TraceResult(Some([Hop(1), Hop(2), Hop(3), Hop(4), Hop(5)]))];
    assert a[..1][..0] == [] && a[..2][..1] == a[..1] && a[..2] == a[..|a| - 1];
    assert HopCounts(a[..1]) == [3];
    assert HopCounts(a[..2]) == [3, 4];
    assert HopCounts(a) == [3, 4, 5];
    assert Sum([3, 4, 5]) == 12 by {
      assert [3, 4, 5][..2] == [3, 4] && [3, 4][..1] == [3] && [3][..0] == [];
    }
  }

  /** A record lacking its result is dropped, not counted as zero hops:
      lengths 3, missing, 5 give two probes and four hops on average. */
  lemma TraceSummaryDropsMissing()
    ensures TraceSummary("UA", [TraceResult(Some([Hop(1), Hop(2), Hop(3)])),
                                TraceResult(None),
                                TraceResult(Some([Hop(1), Hop(2), Hop(3), Hop(4), Hop(5)]))])
            == Some(SummaryLine("UA", 2, 4))
  {
    var b := [TraceResult(Some([Hop(1), Hop(2), Hop(3)])),
              TraceResult(None),
              TraceResult(Some([Hop(1), Hop(2), Hop(3), Hop(4), Hop(5)]))];
    assert b[..1][..0] == [] && b[..2][..1] == b[..1] && b[..2] == b[..|b| - 1];
    assert HopCounts(b[..1]) == [3];
    assert HopCounts(b[..2]) == [3];
    assert HopCounts(b) == [3, 5];
    assert Sum([3, 5]) == 8 by {
      assert [3, 5][..1] == [3] && [3][..0] == [];
    }
  }

  /** The run ends with the division by zero exactly when some source's
      traceroute id (the first id of the pair) was fetched but none of its
      records had a hop list; it stops at the first such source, having
      printed the lines of the sources before it. */
  lemma {:induction false} TraceReportCrash(ids: IdMap, fetch: int -> Fetch<TraceResult>)
    ensures TraceReport(ids, fetch).Crashed? <==>
      exists i :: 0 <= i < |ids| && fetch(ids[i].1.traceroute).Fetched? &&
        |HopCounts(fetch(ids[i].1.traceroute).results)| == 0
    ensures TraceReport(ids, fetch).Crashed? ==>
      var at := TraceReport(ids, fetch).at;
      fetch(ids[at].1.traceroute).Fetched? && |HopCounts(fetch(ids[at].1.traceroute).results)| == 0 &&
      TraceReport(ids[..at], fetch) == Completed(TraceReport(ids, fetch).lines)
  {
    if ids != [] {
      var init := ids[..|ids| - 1];
      TraceReportCrash(init, fetch);
      var prev := TraceReport(init, fetch);
      if prev.Crashed? {
        assert ids[..prev.at] == init[..prev.at];
        var i :| 0 <= i < |init| && fetch(init[i].1.traceroute).Fetched? &&
          |HopCounts(fetch(init[i].1.traceroute).results)| == 0;
        assert ids[i] == init[i];
      } else {
        assert ids[..|ids| - 1] == init;
        forall i | 0 <= i < |init|
          ensures !(fetch(ids[i].1.traceroute).Fetched? && |HopCounts(fetch(ids[i].1.traceroute).results)| == 0)
        {
          assert ids[i] == init[i];
        }
      }
    }
  }

  /** When the run completes, a line is printed for exactly the sources whose
      traceroute id could be fetched, and it summarises those results. */
  lemma {:induction false} TraceReportLines(ids: IdMap, fetch: int -> Fetch<TraceResult>, line: SummaryLine)
    requires TraceReport(ids, fetch).Completed?
    ensures line in TraceReport(ids, fetch).lines <==>
      exists i :: 0 <= i < |ids| && fetch(ids[i].1.traceroute).Fetched? &&
        TraceSummary(ids[i].0, fetch(ids[i].1.traceroute).results) == Some(line)
  {
    if ids != [] {
      var init := ids[..|ids| - 1];
      TraceReportLines(init, fetch, line);
      if exists i :: 0 <= i < |ids| && fetch(ids[i].1.traceroute).Fetched? &&
           TraceSummary(ids[i].0, fetch(ids[i].1.traceroute).results) == Some(line) {
        var i :| 0 <= i < |ids| && fetch(ids[i].1.traceroute).Fetched? &&
          TraceSummary(ids[i].0, fetch(ids[i].1.traceroute).results) == Some(line);
        if i < |init| {
          assert init[i] == ids[i];
        }
      }
      if exists i :: 0 <= i < |init| && fetch(init[i].1.traceroute).Fetched? &&
           TraceSummary(init[i].0, fetch(init[i].1.traceroute).results) == Some(line) {
        var i :| 0 <= i < |init| && fetch(init[i].1.traceroute).Fetched? &&
          TraceSummary(init[i].0, fetch(init[i].1.traceroute).results) == Some(line);
        assert ids[i] == init[i];
      }
    }
  }

  /** The report follows dict order, one line per fetched source: a dict
      completes exactly when both of its parts do, and then its lines are
      the lines of the first part followed by those of the second. */
  lemma {:induction false} TraceReportAppend(a: IdMap, b: IdMap, fetch: int -> Fetch<TraceResult>)
    ensures TraceReport(a + b, fetch).Completed? <==>
      TraceReport(a, fetch).Completed? && TraceReport(b, fetch).Completed?
    ensures TraceReport(a + b, fetch).Completed? ==>
      TraceReport(a + b, fetch).lines == TraceReport(a, fetch).lines + TraceReport(b, fetch).lines
    decreases |b|
  {
    if b == [] {
      assert a + b == a;
    } else {
      var b' := b[..|b| - 1];
      assert (a + b)[..|a + b| - 1] == a + b';
      assert (a + b)[|a + b| - 1] == b[|b| - 1];
      TraceReportAppend(a, b', fetch);
    }
  }
}
