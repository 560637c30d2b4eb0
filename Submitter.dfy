/** `create_all`: submit a measurement pair for every country that has none yet. */
module Submitter {
  import opened Wrappers
  import opened IdStore
  import opened Atlas

  /** One call of `create_measurement`: the country and the platform's answer. */
  datatype Submission = Submission(country: Country, answer: Option<Pair>)

  /** The dict being updated and the calls made so far. */
  datatype CreateState = CreateState(ids: IdMap, log: seq<Submission>)

  /** The loop body for one country: skip it if it is a key, otherwise submit
      it and insert the returned pair on success. */
  function CreateStep(s: CreateState, cc: Country, create: CreateOracle): CreateState
  {
    if Contains(s.ids, cc) then s
    else
      var answer := create(|s.log|, MeasurementRequest(cc));
      CreateState(if answer.Some? then s.ids + [(cc, answer.value)] else s.ids,
                  s.log + [Submission(cc, answer)])
  }

  /** The loop over the country list, as a left fold of CreateStep. */
  function CreateRun(countries: seq<Country>, ids: IdMap, create: CreateOracle): CreateState
  {
    if countries == [] then CreateState(ids, [])
    else CreateStep(CreateRun(countries[..|countries| - 1], ids, create), countries[|countries| - 1], create)
  }

  /** Some call of the log was for `cc`. */
  predicate Submitted(log: seq<Submission>, cc: Country)
  {
    exists i :: 0 <= i < |log| && log[i].country == cc
  }

  /** Every call of the log for `cc` failed (vacuously so when there was none). */
  predicate AllCallsFailed(log: seq<Submission>, cc: Country)
  {
    forall i :: 0 <= i < |log| && log[i].country == cc ==> log[i].answer.None?
  }

  /** The entries the successful submissions of a log insert, in call order. */
  function Created(log: seq<Submission>): IdMap
  {
    if log == [] then []
    else
      var last := log[|log| - 1];
      Created(log[..|log| - 1]) + (if last.answer.Some? then [(last.country, last.answer.value)] else [])
  }

  /** `create_all(countries, ids)`: returns the updated dict and the calls it made. */
  method CreateAll(countries: seq<Country>, ids: IdMap, create: CreateOracle)
    returns (updated: IdMap, log: seq<Submission>)
    ensures CreateState(updated, log) == CreateRun(countries, ids, create)
    ensures updated == ids + Created(log)
    ensures forall cc :: Contains(ids, cc) ==> Lookup(updated, cc) == Lookup(ids, cc)
  {
    updated, log := ids, [];
    for i := 0 to |countries|
      invariant CreateState(updated, log) == CreateRun(countries[..i], ids, create)
    {
      assert countries[..i + 1][..i] == countries[..i];
      var cc := countries[i];
      if Contains(updated, cc) {
        // "measurement for cc already exists"
      } else {
        var res := create(|log|, MeasurementRequest(cc));
        log := log + [Submission(cc, res)];
        if res.Some? {
          updated := updated + [(cc, res.value)];
        }
      }
    }
    assert countries[..|countries|] == countries;
    CreateRunShape(countries, ids, create, CreateState(updated, log));
    CreateRunPreservesEntries(countries, ids, create, CreateState(updated, log));
  }

  /** The dict after the run is the dict before it followed by the pairs of
      the successful calls, in call order. */
  lemma {:induction false} CreateRunShape(countries: seq<Country>, ids: IdMap, create: CreateOracle, r: CreateState)
    requires r == CreateRun(countries, ids, create)
    ensures r.ids == ids + Created(r.log)
  {
    if countries != [] {
      var init, cc := countries[..|countries| - 1], countries[|countries| - 1];
      var s := CreateRun(init, ids, create);
      CreateRunShape(init, ids, create, s);
      if !Contains(s.ids, cc) {
        var answer := create(|s.log|, MeasurementRequest(cc));
        var tail := if answer.Some? then [(cc, answer.value)] else [];
        CreatedSnoc(s.log, Submission(cc, answer));
        assert ids + Created(s.log) + tail == ids + (Created(s.log) + tail);
      }
    }
  }

  /** One more call adds its pair to Created exactly when it succeeded. */
  lemma CreatedSnoc(log: seq<Submission>, last: Submission)
    ensures Created(log + [last]) ==
      Created(log) + (if last.answer.Some? then [(last.country, last.answer.value)] else [])
  {
    assert (log + [last])[..|log|] == log;
  }

  /** Each call got the platform's answer to its own request, numbered by its
      position among the calls of the run. */
  lemma {:induction false} CreateRunAnswers(countries: seq<Country>, ids: IdMap, create: CreateOracle, r: CreateState)
    requires r == CreateRun(countries, ids, create)
    ensures forall j :: 0 <= j < |r.log| ==> r.log[j].answer == create(j, MeasurementRequest(r.log[j].country))
  {
    if countries != [] {
      var init, cc := countries[..|countries| - 1], countries[|countries| - 1];
      var s := CreateRun(init, ids, create);
      CreateRunAnswers(init, ids, create, s);
      if !Contains(s.ids, cc) {
        assert r.log == s.log + [Submission(cc, create(|s.log|, MeasurementRequest(cc)))];
        forall j | 0 <= j < |r.log|
          ensures r.log[j].answer == create(j, MeasurementRequest(r.log[j].country))
        {
          if j < |s.log| {
            assert r.log[j] == s.log[j];
          }
        }
      }
    }
  }

  /** A country is a key of Created(log) exactly when one of its calls succeeded. */
  lemma {:induction false} CreatedKeys(log: seq<Submission>, cc: Country)
    ensures Contains(Created(log), cc) <==>
      exists j :: 0 <= j < |log| && log[j].country == cc && log[j].answer.Some?
  {
    if log != [] {
      var init, last := log[..|log| - 1], log[|log| - 1];
      CreatedKeys(init, cc);
      var tail := if last.answer.Some? then [(last.country, last.answer.value)] else [];
      ContainsConcat(Created(init), tail, cc);
      if exists j :: 0 <= j < |log| && log[j].country == cc && log[j].answer.Some? {
        var j :| 0 <= j < |log| && log[j].country == cc && log[j].answer.Some?;
        if j < |init| {
          assert init[j] == log[j];
        } else {
          assert tail[0].0 == cc;
        }
      }
      if exists j :: 0 <= j < |init| && init[j].country == cc && init[j].answer.Some? {
        var j :| 0 <= j < |init| && init[j].country == cc && init[j].answer.Some?;
        assert log[j] == init[j];
      }
    }
  }

  /** After the run a country is a key exactly when it was one before or a
      call for it succeeded; so a failed creation leaves no trace. */
  lemma CreateRunKeys(countries: seq<Country>, ids: IdMap, create: CreateOracle, r: CreateState, cc: Country)
    requires r == CreateRun(countries, ids, create)
    ensures Contains(r.ids, cc) <==>
      Contains(ids, cc) || exists j :: 0 <= j < |r.log| && r.log[j].country == cc && r.log[j].answer.Some?
  {
    CreateRunShape(countries, ids, create, r);
    ContainsConcat(ids, Created(r.log), cc);
    CreatedKeys(r.log, cc);
  }

  /** Entries that were present are never removed or changed. */
  lemma CreateRunPreservesEntries(countries: seq<Country>, ids: IdMap, create: CreateOracle, r: CreateState)
    requires r == CreateRun(countries, ids, create)
    ensures forall cc :: Contains(ids, cc) ==> Lookup(r.ids, cc) == Lookup(ids, cc)
  {
    CreateRunShape(countries, ids, create, r);
    forall cc | Contains(ids, cc)
      ensures Lookup(r.ids, cc) == Lookup(ids, cc)
    {
      LookupPrefix(ids, Created(r.log), cc);
    }
  }

  /** Only countries that are not keys are submitted: none that was present
      before the run, and none again after a call for it succeeded. */
  lemma {:induction false} CreateRunSubmitsOnlyAbsent(countries: seq<Country>, ids: IdMap, create: CreateOracle,
                                                       r: CreateState)
    requires r == CreateRun(countries, ids, create)
    ensures forall j :: 0 <= j < |r.log| ==> !Contains(ids, r.log[j].country)
    ensures forall i, j :: 0 <= i < j < |r.log| && r.log[i].country == r.log[j].country ==> r.log[i].answer.None?
  {
    if countries != [] {
      var init, cc := countries[..|countries| - 1], countries[|countries| - 1];
      var s := CreateRun(init, ids, create);
      CreateRunSubmitsOnlyAbsent(init, ids, create, s);
      if !Contains(s.ids, cc) {
        CreateRunKeys(init, ids, create, s, cc);
        assert r.log == s.log + [r.log[|s.log|]] && r.log[|s.log|].country == cc;
        forall i, j | 0 <= i < j < |r.log| && r.log[i].country == r.log[j].country
          ensures r.log[i].answer.None?
        {
          assert r.log[i] == s.log[i];
          if j < |s.log| {
            assert r.log[j] == s.log[j];
          }
        }
      }
    }
  }

  /** At most one call per country succeeds, so a country repeated in the
      list is created at most once. */
  lemma CreateRunAtMostOneSuccess(countries: seq<Country>, ids: IdMap, create: CreateOracle, r: CreateState)
    requires r == CreateRun(countries, ids, create)
    ensures forall i, j ::
      (0 <= i < |r.log| && 0 <= j < |r.log| && r.log[i].country == r.log[j].country &&
       r.log[i].answer.Some? && r.log[j].answer.Some?) ==> i == j
  {
    CreateRunSubmitsOnlyAbsent(countries, ids, create, r);
  }

  /** Every country of the list that was not a key was submitted. */
  lemma {:induction false} CreateRunCoversCountries(countries: seq<Country>, ids: IdMap, create: CreateOracle,
                                                     r: CreateState)
    requires r == CreateRun(countries, ids, create)
    ensures forall k :: 0 <= k < |countries| ==>
      Contains(ids, countries[k]) || exists j :: 0 <= j < |r.log| && r.log[j].country == countries[k]
  {
    if countries != [] {
      var init, cc := countries[..|countries| - 1], countries[|countries| - 1];
      var s := CreateRun(init, ids, create);
      CreateRunCoversCountries(init, ids, create, s);
      assert r.log[..|s.log|] == s.log;
      forall k | 0 <= k < |countries| && !Contains(ids, countries[k])
        ensures exists j :: 0 <= j < |r.log| && r.log[j].country == countries[k]
      {
        if k < |init| {
          assert init[k] == countries[k];
          var j :| 0 <= j < |s.log| && s.log[j].country == countries[k];
          assert r.log[j] == s.log[j];
        } else if Contains(s.ids, cc) {
          CreateRunKeys(init, ids, create, s, cc);
          var j :| 0 <= j < |s.log| && s.log[j].country == cc && s.log[j].answer.Some?;
          assert r.log[j] == s.log[j];
        } else {
          assert r.log[|s.log|].country == cc;
        }
      }
    }
  }

  /** The list positions at which the run makes a call, in call order. */
  function CallPositions(countries: seq<Country>, ids: IdMap, create: CreateOracle): seq<nat>
  {
    if countries == [] then []
    else
      var init := countries[..|countries| - 1];
      CallPositions(init, ids, create) +
        (if Contains(CreateRun(init, ids, create).ids, countries[|countries| - 1]) then [] else [|countries| - 1])
  }

  /** Calls are made in list order: the j-th call is for the country at
      position pos[j] of the list, and the positions increase. */
  lemma {:induction false} CreateRunInListOrder(countries: seq<Country>, ids: IdMap, create: CreateOracle,
                                                 r: CreateState)
    returns (pos: seq<nat>)
    requires r == CreateRun(countries, ids, create)
    ensures pos == CallPositions(countries, ids, create)
    ensures |pos| == |r.log| <= |countries|
    ensures forall j :: 0 <= j < |pos| ==> pos[j] < |countries| && countries[pos[j]] == r.log[j].country
    ensures forall i, j :: 0 <= i < j < |pos| ==> pos[i] < pos[j]
  {
    if countries == [] {
      pos := [];
    } else {
      var init, cc := countries[..|countries| - 1], countries[|countries| - 1];
      var s := CreateRun(init, ids, create);
      pos := CreateRunInListOrder(init, ids, create, s);
      if !Contains(s.ids, cc) {
        pos := pos + [|countries| - 1];
      }
    }
  }

  /** A position of the list gets a call exactly when its country was not a
      key before the run and every earlier call for that country failed: a
      repeated country is submitted again at each occurrence until one of
      its calls succeeds. */
  lemma {:induction false} CreateRunCallAt(countries: seq<Country>, ids: IdMap, create: CreateOracle,
                                            r: CreateState, pos: seq<nat>, k: nat)
    requires r == CreateRun(countries, ids, create)
    requires pos == CallPositions(countries, ids, create)
    requires k < |countries|
    ensures |pos| == |r.log|
    ensures k in pos <==>
      !Contains(ids, countries[k]) &&
      forall j :: 0 <= j < |pos| && pos[j] < k && r.log[j].country == countries[k] ==> r.log[j].answer.None?
    decreases |countries|, 1
  {
    if k < |countries| - 1 {
      CallAtEarlier(countries, ids, create, r, pos, k);
    } else {
      CallAtLast(countries, ids, create, r, pos);
    }
  }

  /** CreateRunCallAt for a position before the last one: the last element
      of the list adds at most a call after it. */
  lemma {:induction false} CallAtEarlier(countries: seq<Country>, ids: IdMap, create: CreateOracle,
                                          r: CreateState, pos: seq<nat>, k: nat)
    requires r == CreateRun(countries, ids, create)
    requires pos == CallPositions(countries, ids, create)
    requires k < |countries| - 1
    ensures |pos| == |r.log|
    ensures k in pos <==>
      !Contains(ids, countries[k]) &&
      forall j :: 0 <= j < |pos| && pos[j] < k && r.log[j].country == countries[k] ==> r.log[j].answer.None?
    decreases |countries|, 0
  {
    var init := countries[..|countries| - 1];
    var s := CreateRun(init, ids, create);
    var pre := CallPositions(init, ids, create);
    CreateRunCallAt(init, ids, create, s, pre, k);
    assert init[k] == countries[k];
    assert pos[..|pre|] == pre && r.log[..|s.log|] == s.log;
    assert |pos| == |pre| || pos[|pre|] == |init|;
    assert k in pos <==> k in pre;
    forall j | 0 <= j < |pos| && pos[j] < k
      ensures j < |pre| && pos[j] == pre[j] && r.log[j] == s.log[j]
    {
      assert pos[..|pre|][j] == pos[j] && r.log[..|s.log|][j] == r.log[j];
    }
  }

  /** CreateRunCallAt for the last position: it gets a call exactly when its
      country is not a key after the calls before it. */
  lemma {:induction false} CallAtLast(countries: seq<Country>, ids: IdMap, create: CreateOracle,
                                       r: CreateState, pos: seq<nat>)
    requires r == CreateRun(countries, ids, create)
    requires pos == CallPositions(countries, ids, create)
    requires countries != []
    ensures |pos| == |r.log|
    ensures var k, cc := |countries| - 1, countries[|countries| - 1];
      k in pos <==>
      !Contains(ids, cc) &&
      forall j :: 0 <= j < |pos| && pos[j] < k && r.log[j].country == cc ==> r.log[j].answer.None?
    decreases |countries|, 0
  {
    var init, cc := countries[..|countries| - 1], countries[|countries| - 1];
    var s := CreateRun(init, ids, create);
    var pre := CreateRunInListOrder(init, ids, create, s);
    var absent := !Contains(s.ids, cc);
    assert pos == pre + (if absent then [|init|] else []);
    assert r.log[..|s.log|] == s.log && |r.log| == |s.log| + (if absent then 1 else 0);
    assert |init| in pos <==> absent;
    forall j | 0 <= j < |pre|
      ensures pos[j] == pre[j] < |init| && r.log[j] == s.log[j]
    {
      assert r.log[..|s.log|][j] == r.log[j];
    }
    CreateRunKeys(init, ids, create, s, cc);
    if !absent && !Contains(ids, cc) {
      var j :| 0 <= j < |s.log| && s.log[j].country == cc && s.log[j].answer.Some?;
      assert pos[j] < |init| && r.log[j].country == cc;
    }
  }

  /** The run keeps a well-formed dict (distinct keys) well-formed. */
  lemma {:induction false} CreateRunKeepsDistinct(countries: seq<Country>, ids: IdMap, create: CreateOracle)
    requires DistinctKeys(ids)
    ensures DistinctKeys(CreateRun(countries, ids, create).ids)
  {
    if countries != [] {
      var init, cc := countries[..|countries| - 1], countries[|countries| - 1];
      CreateRunKeepsDistinct(init, ids, create);
      var s := CreateRun(init, ids, create);
      if !Contains(s.ids, cc) {
        var answer := create(|s.log|, MeasurementRequest(cc));
        if answer.Some? {
          AppendNewKey(s.ids, cc, answer.value);
        }
      }
    }
  }

  /** Idempotence: when every country of the list already has a pair, the
      run makes no call and returns the dict unchanged. */
  lemma {:induction false} CreateRunIdempotent(countries: seq<Country>, ids: IdMap, create: CreateOracle)
    requires forall k :: 0 <= k < |countries| ==> Contains(ids, countries[k])
    ensures CreateRun(countries, ids, create) == CreateState(ids, [])
  {
    if countries != [] {
      CreateRunIdempotent(countries[..|countries| - 1], ids, create);
    }
  }

  /** A second run over the output of a first submits only countries that
      had no pair before the first run and whose every call in it failed. */
  lemma CreateRerunSubmitsOnlyFailed(countries: seq<Country>, ids: IdMap, create: CreateOracle, r1: CreateState,
                                     countries2: seq<Country>, create2: CreateOracle, r2: CreateState)
    requires r1 == CreateRun(countries, ids, create)
    requires r2 == CreateRun(countries2, r1.ids, create2)
    ensures forall j :: 0 <= j < |r2.log| ==> !Contains(ids, r2.log[j].country)
    ensures forall i, j :: 0 <= i < |r1.log| && 0 <= j < |r2.log| && r1.log[i].country == r2.log[j].country ==>
      r1.log[i].answer.None?
  {
    CreateRunSubmitsOnlyAbsent(countries2, r1.ids, create2, r2);
    forall j | 0 <= j < |r2.log|
      ensures !Contains(ids, r2.log[j].country)
      ensures forall i :: 0 <= i < |r1.log| && r1.log[i].country == r2.log[j].country ==> r1.log[i].answer.None?
    {
      CreateRunKeys(countries, ids, create, r1, r2.log[j].country);
    }
  }

  /** A country the second run submits was submitted by the first, and
      every one of those calls failed. */
  lemma RerunSubmittedBefore(countries: seq<Country>, ids: IdMap, create: CreateOracle, r1: CreateState,
                             create2: CreateOracle, r2: CreateState, cc: Country)
    requires r1 == CreateRun(countries, ids, create)
    requires r2 == CreateRun(countries, r1.ids, create2)
    requires Submitted(r2.log, cc)
    ensures Submitted(r1.log, cc) && AllCallsFailed(r1.log, cc)
  {
    var pos2 := CreateRunInListOrder(countries, r1.ids, create2, r2);
    CreateRunSubmitsOnlyAbsent(countries, r1.ids, create2, r2);
    var j :| 0 <= j < |r2.log| && r2.log[j].country == cc;
    var k := pos2[j];
    assert countries[k] == cc && !Contains(r1.ids, cc);
    CreateRunKeys(countries, ids, create, r1, cc);
    CreateRunCoversCountries(countries, ids, create, r1);
    assert !Contains(ids, countries[k]);
  }

  /** A country the first run submitted whose every call failed is
      submitted by the second. */
  lemma RerunRetriesFailed(countries: seq<Country>, ids: IdMap, create: CreateOracle, r1: CreateState,
                           create2: CreateOracle, r2: CreateState, cc: Country)
    requires r1 == CreateRun(countries, ids, create)
    requires r2 == CreateRun(countries, r1.ids, create2)
    requires Submitted(r1.log, cc) && AllCallsFailed(r1.log, cc)
    ensures Submitted(r2.log, cc)
  {
    var pos1 := CreateRunInListOrder(countries, ids, create, r1);
    CreateRunSubmitsOnlyAbsent(countries, ids, create, r1);
    var i :| 0 <= i < |r1.log| && r1.log[i].country == cc;
    var k := pos1[i];
    assert countries[k] == cc && !Contains(ids, cc);
    CreateRunKeys(countries, ids, create, r1, cc);
    CreateRunCoversCountries(countries, r1.ids, create2, r2);
    assert !Contains(r1.ids, countries[k]);
  }

  /** Two runs over the same list: the second submits a country exactly
      when the first submitted it and every one of those calls failed. */
  lemma CreateRerunRetriesExactlyFailed(countries: seq<Country>, ids: IdMap, create: CreateOracle, r1: CreateState,
                                        create2: CreateOracle, r2: CreateState)
    requires r1 == CreateRun(countries, ids, create)
    requires r2 == CreateRun(countries, r1.ids, create2)
    ensures forall cc :: Submitted(r2.log, cc) <==> Submitted(r1.log, cc) && AllCallsFailed(r1.log, cc)
  {
    forall cc
      ensures Submitted(r2.log, cc) <==> Submitted(r1.log, cc) && AllCallsFailed(r1.log, cc)
    {
      if Submitted(r2.log, cc) {
        RerunSubmittedBefore(countries, ids, create, r1, create2, r2, cc);
      }
      if Submitted(r1.log, cc) && AllCallsFailed(r1.log, cc) {
        RerunRetriesFailed(countries, ids, create, r1, create2, r2, cc);
      }
    }
  }
}
