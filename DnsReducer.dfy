/** `dump_dns` of the reachability script: per country, the number of DNS
    probes with a usable round-trip time and their floor-average RTT. */
module DnsReducer {
  import opened Wrappers
  import opened IdStore
  import opened Atlas
  import opened Stats

  /** The nested `result` object of one DNS probe result; `rt` may be absent. */
  datatype DnsPayload = DnsPayload(rt: Option<int>)

  /** One raw DNS probe result; its `result` may be absent. */
  datatype DnsResult = DnsResult(result: Option<DnsPayload>)

  /** The per-record extraction: the rt of a record when it is present and
      strictly positive; a record that lacks it is skipped. */
  function UsableRtt(r: DnsResult): Option<int>
  {
    match r.result
    case Some(DnsPayload(Some(rt))) => if rt > 0 then Some(rt) else None
    case _ => None
  }

  /** `rt_list` after the loop over a source's results. */
  function KeptRtts(results: seq<DnsResult>): seq<int>
  {
    if results == [] then []
    else
      var u := UsableRtt(results[|results| - 1]);
      KeptRtts(results[..|results| - 1]) + (if u.Some? then [u.value] else [])
  }

  /** The line printed for a source whose results were fetched. */
  function DnsSummary(cc: Country, results: seq<DnsResult>): SummaryLine
  {
    var kept := KeptRtts(results);
    SummaryLine(cc, |kept|, if |kept| > 0 then FloorAverage(kept) else 0)
  }

  /** The lines printed for a dict: its DNS ids are fetched in dict order and
      a source whose fetch fails prints nothing. */
  function DnsReport(ids: IdMap, fetch: int -> Fetch<DnsResult>): seq<SummaryLine>
  {
    if ids == [] then []
    else
      var (cc, mid) := ids[|ids| - 1];
      DnsReport(ids[..|ids| - 1], fetch) +
        (match fetch(mid.dns)
         case Fetched(results) => [DnsSummary(cc, results)]
         case FetchFailed => [])
  }

  /** `dump_dns(ids)`, returning the lines it prints after its header. */
  method DumpDns(ids: IdMap, fetch: int -> Fetch<DnsResult>) returns (lines: seq<SummaryLine>)
    ensures lines == DnsReport(ids, fetch)
  {
    lines := [];
    for i := 0 to |ids|
      invariant lines == DnsReport(ids[..i], fetch)
    {
      assert ids[..i + 1][..i] == ids[..i];
      var (cc, mid) := ids[i];
      var fetched := fetch(mid.dns);
      var rtList := [];
      if fetched.Fetched? {
        var results := fetched.results;
        for j := 0 to |results|
          invariant rtList == KeptRtts(results[..j])
        {
          assert results[..j + 1][..j] == results[..j];
          var r := results[j];
          if r.result.Some? && r.result.value.rt.Some? {
            var rt := r.result.value.rt.value;
            if rt > 0 {
              rtList := rtList + [rt];
            }
          }
        }
        assert results[..|results|] == results;
        var average := if |rtList| > 0 then Sum(rtList) / |rtList| else 0;
        lines := lines + [SummaryLine(cc, |rtList|, average)];
      }
    }
    assert ids[..|ids|] == ids;
  }

  /** Exactly the present, strictly positive rt values are kept, never more
      than one per record. */
  lemma {:induction false} KeptRttsExact(results: seq<DnsResult>, v: int)
    ensures |KeptRtts(results)| <= |results|
    ensures v in KeptRtts(results) <==>
      v > 0 && exists i :: 0 <= i < |results| && results[i].result == Some(DnsPayload(Some(v)))
  {
    if results != [] {
      var init, last := results[..|results| - 1], results[|results| - 1];
      KeptRttsExact(init, v);
      if exists i :: 0 <= i < |results| && results[i].result == Some(DnsPayload(Some(v))) {
        var i :| 0 <= i < |results| && results[i].result == Some(DnsPayload(Some(v)));
        if i < |init| {
          assert init[i] == results[i];
        }
      }
      if exists i :: 0 <= i < |init| && init[i].result == Some(DnsPayload(Some(v))) {
        var i :| 0 <= i < |init| && init[i].result == Some(DnsPayload(Some(v)));
        assert results[i] == init[i];
      }
    }
  }

  /** A skipped record does not abort the source: the kept values of a
      concatenation are the kept values of its parts, in order. */
  lemma {:induction false} KeptRttsAppend(a: seq<DnsResult>, b: seq<DnsResult>)
    ensures KeptRtts(a + b) == KeptRtts(a) + KeptRtts(b)
    decreases |b|
  {
    if b == [] {
      assert a + b == a;
    } else {
      var b' := b[..|b| - 1];
      assert (a + b)[..|a + b| - 1] == a + b';
      assert (a + b)[|a + b| - 1] == b[|b| - 1];
      KeptRttsAppend(a, b');
    }
  }

  /** The average is 0 when nothing was kept and otherwise lies between the
      least and the greatest kept value. */
  lemma DnsSummaryAverage(cc: Country, results: seq<DnsResult>)
    ensures var line, kept := DnsSummary(cc, results), KeptRtts(results);
      line.country == cc && line.count == |kept| &&
      (|kept| == 0 ==> line.average == 0) &&
      (|kept| > 0 ==> Min(kept) <= line.average <= Max(kept) && line.average == Sum(kept) / |kept|)
  {
    var kept := KeptRtts(results);
    if |kept| > 0 {
      FloorAverageBounds(kept);
    }
  }

  /** rt values 10, -1, 20 and one record without rt: two kept, average 15. */
  lemma DnsSummaryExample()
    ensures DnsSummary("UZ", [DnsResult(Some(DnsPayload(Some(10)))), DnsResult(Some(DnsPayload(Some(-1)))),
                               DnsResult(Some(DnsPayload(Some(20)))), DnsResult(Some(DnsPayload(None)))])
            == SummaryLine("UZ", 2, 15)
  {
    var rs := [DnsResult(Some(DnsPayload(Some(10)))), DnsResult(Some(DnsPayload(Some(-1)))),
               DnsResult(Some(DnsPayload(Some(20)))), DnsResult(Some(DnsPayload(None)))];
    assert rs[..1][..0] == [] && rs[..2][..1] == rs[..1] && rs[..3][..2] == rs[..2] && rs[..3] == rs[..|rs| - 1];
    assert KeptRtts(rs[..1]) == [10];
    assert KeptRtts(rs[..2]) == [10];
    assert KeptRtts(rs[..3]) == [10, 20];
    assert KeptRtts(rs) == [10, 20];
    assert Sum([10, 20]) == 30 by {
      assert [10, 20][..1] == [10];
      assert [10][..0] == [];
    }
  }

  /** The report follows dict order: a report over a concatenation is the
      concatenation of the reports. */
  lemma {:induction false} DnsReportAppend(a: IdMap, b: IdMap, fetch: int -> Fetch<DnsResult>)
    ensures DnsReport(a + b, fetch) == DnsReport(a, fetch) + DnsReport(b, fetch)
    decreases |b|
  {
    if b == [] {
      assert a + b == a;
    } else {
      var b' := b[..|b| - 1];
      assert (a + b)[..|a + b| - 1] == a + b';
      assert (a + b)[|a + b| - 1] == b[|b| - 1];
      DnsReportAppend(a, b', fetch);
    }
  }

  /** A line is printed for exactly the sources whose DNS id (the second id
      of the pair) could be fetched, and it summarises those results. */
  lemma {:induction false} DnsReportLines(ids: IdMap, fetch: int -> Fetch<DnsResult>, line: SummaryLine)
    ensures |DnsReport(ids, fetch)| <= |ids|
    ensures line in DnsReport(ids, fetch) <==>
      exists i :: 0 <= i < |ids| && fetch(ids[i].1.dns).Fetched? &&
        line == DnsSummary(ids[i].0, fetch(ids[i].1.dns).results)
  {
    if ids != [] {
      var init := ids[..|ids| - 1];
      DnsReportLines(init, fetch, line);
      if exists i :: 0 <= i < |ids| && fetch(ids[i].1.dns).Fetched? &&
           line == DnsSummary(ids[i].0, fetch(ids[i].1.dns).results) {
        var i :| 0 <= i < |ids| && fetch(ids[i].1.dns).Fetched? &&
           line == DnsSummary(ids[i].0, fetch(ids[i].1.dns).results);
        if i < |init| {
          assert init[i] == ids[i];
        }
      }
      if exists i :: 0 <= i < |init| && fetch(init[i].1.dns).Fetched? &&
           line == DnsSummary(init[i].0, fetch(init[i].1.dns).results) {
        var i :| 0 <= i < |init| && fetch(init[i].1.dns).Fetched? &&
           line == DnsSummary(init[i].0, fetch(init[i].1.dns).results);
        assert ids[i] == init[i];
      }
    }
  }
}
