/** The dns-maxmind script: print the first RDATA of the first answer of
    every raw DNS result that has one. */
module DnsMaxmind {
  import opened Wrappers
  import opened IdStore

  /** One answer record; its `RDATA` list may be absent. */
  datatype Answer = Answer(rdata: Option<seq<string>>)

  /** The nested `result` object; its `answers` list may be absent. */
  datatype ResultBody = ResultBody(answers: Option<seq<Answer>>)

  /** One raw DNS result; its `result` may be absent, which also stands for
      an element that is not an object at all. */
  datatype RawResult = RawResult(result: Option<ResultBody>)

  /** `r.get("result")["answers"][0]["RDATA"][0]` when every step of that
      path exists; None when any step raises and the record is skipped. */
  function FirstRdata(r: RawResult): (v: Option<string>)
    ensures v.Some? <==>
      r.result.Some? && r.result.value.answers.Some? && |r.result.value.answers.value| > 0 &&
      r.result.value.answers.value[0].rdata.Some? && |r.result.value.answers.value[0].rdata.value| > 0
    ensures v.Some? ==> v.value == r.result.value.answers.value[0].rdata.value[0]
  {
    match r.result
    case None => None
    case Some(body) =>
      match body.answers
      case None => None
      case Some(answers) =>
        if |answers| == 0 then None
        else
          match answers[0].rdata
          case None => None
          case Some(rdata) => if |rdata| == 0 then None else Some(rdata[0])
  }

  /** `dump_dns(ids)`: the values it prints, one per line. */
  function DumpFirstRdata(results: seq<RawResult>): (printed: seq<string>)
    ensures |printed| <= |results|
    ensures forall k :: 0 <= k < |printed| ==>
      exists i :: 0 <= i < |results| && FirstRdata(results[i]) == Some(printed[k])
  {
    if results == [] then []
    else
      var v := FirstRdata(results[0]);
      (if v.Some? then [v.value] else []) + DumpFirstRdata(results[1..])
  }

  /** A record that fails does not stop the ones after it: the output for a
      concatenation is the concatenation of the outputs, in input order. */
  lemma {:induction false} DumpFirstRdataAppend(a: seq<RawResult>, b: seq<RawResult>)
    ensures DumpFirstRdata(a + b) == DumpFirstRdata(a) + DumpFirstRdata(b)
  {
    if a != [] {
      assert (a + b)[0] == a[0];
      assert (a + b)[1..] == a[1..] + b;
      DumpFirstRdataAppend(a[1..], b);
    } else {
      assert a + b == b;
    }
  }

  /** Each record contributes its first RDATA when the path exists and
      nothing otherwise, so there is at most one value per record. */
  lemma DumpFirstRdataSingle(r: RawResult)
    ensures DumpFirstRdata([r]) == if FirstRdata(r).Some? then [FirstRdata(r).value] else []
  {
    assert [r][1..] == [];
  }

  /** The output is never longer than the input, and a value is printed
      exactly when some record's first answer has it as its first RDATA. */
  lemma {:induction false} DumpFirstRdataExact(results: seq<RawResult>, v: string)
    ensures |DumpFirstRdata(results)| <= |results|
    ensures v in DumpFirstRdata(results) <==> exists i :: 0 <= i < |results| && FirstRdata(results[i]) == Some(v)
  {
    if results != [] {
      var rest := results[1..];
      DumpFirstRdataExact(rest, v);
      if exists i :: 0 <= i < |results| && FirstRdata(results[i]) == Some(v) {
        var i :| 0 <= i < |results| && FirstRdata(results[i]) == Some(v);
        if i > 0 {
          assert rest[i - 1] == results[i];
        }
      }
      if exists i :: 0 <= i < |rest| && FirstRdata(rest[i]) == Some(v) {
        var i :| 0 <= i < |rest| && FirstRdata(rest[i]) == Some(v);
        assert results[i + 1] == rest[i];
      }
    }
  }

  /** A missing result, an empty answer list and an empty RDATA list print
      nothing; the good record after them still prints. */
  lemma DumpFirstRdataExample()
    ensures DumpFirstRdata([RawResult(None),
                            RawResult(Some(ResultBody(Some([])))),
                            RawResult(Some(ResultBody(Some([Answer(Some([]))])))),
                            RawResult(Some(ResultBody(Some([Answer(Some(["a.root-servers.net."]))]))))])
            == ["a.root-servers.net."]
  {
    var rs := [RawResult(None),
               RawResult(Some(ResultBody(Some([])))),
               RawResult(Some(ResultBody(Some([Answer(Some([]))])))),
               RawResult(Some(ResultBody(Some([Answer(Some(["a.root-servers.net."]))]))))];
    assert rs[1..][1..][1..][1..] == [];
    assert DumpFirstRdata(rs[1..][1..][1..]) == ["a.root-servers.net."];
  }

  /** `main` of dns-maxmind: exit code and printed values. */
  datatype MaxmindOutcome = MaxmindOutcome(exitCode: int, printed: seq<string>)

  function MaxmindRun(argv: seq<string>, files: string -> StoredFile<seq<RawResult>>): (o: MaxmindOutcome)
    ensures |argv| < 2 ==> o == MaxmindOutcome(0, [])
    ensures |argv| >= 2 && files(argv[1]).Missing? ==> o == MaxmindOutcome(0, [])
    ensures |argv| >= 2 && files(argv[1]).Corrupt? ==> o == MaxmindOutcome(1, [])
    ensures |argv| >= 2 && files(argv[1]).Holds? ==> o == MaxmindOutcome(0, DumpFirstRdata(files(argv[1]).content))
  {
    if |argv| < 2 then MaxmindOutcome(0, [])
    else
      match LoadIds(files(argv[1]))
      case Fatal(code) => MaxmindOutcome(code, [])
      case Loaded(results) => MaxmindOutcome(0, DumpFirstRdata(results))
  }
}
