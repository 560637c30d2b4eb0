/** The persisted mapping from country code to its pair of measurement ids,
    and the abstract file it is loaded from and saved to. */
module IdStore {
  import opened Wrappers

  /** A logical source: a two-letter country code. */
  type Country = string

  /** The ids the platform assigned to one country's measurements, in the
      order the creation request lists them: traceroute first, DNS second. */
  datatype Pair = Pair(traceroute: int, dns: int)

  /** Python's insertion-ordered dict from country to pair, as an association list. */
  type IdMap = seq<(Country, Pair)>

  /** `cc in ids` */
  predicate Contains(ids: IdMap, cc: Country)
  {
    exists i :: 0 <= i < |ids| && ids[i].0 == cc
  }

  /** A dict never holds a key twice. */
  predicate DistinctKeys(ids: IdMap)
  {
    forall i, j :: 0 <= i < j < |ids| ==> ids[i].0 != ids[j].0
  }

  /** `ids.get(cc)` */
  function Lookup(ids: IdMap, cc: Country): (r: Option<Pair>)
    ensures r.None? <==> !Contains(ids, cc)
    ensures r.Some? ==> (cc, r.value) in ids
  {
    if ids == [] then None
    else if ids[0].0 == cc then Some(ids[0].1)
    else
      var r := Lookup(ids[1..], cc);
      assert Contains(ids, cc) ==> Contains(ids[1..], cc) by {
        if Contains(ids, cc) {
          var i :| 0 <= i < |ids| && ids[i].0 == cc;
          assert ids[1..][i - 1].0 == cc;
        }
      }
      assert Contains(ids[1..], cc) ==> Contains(ids, cc) by {
        if Contains(ids[1..], cc) {
          var i :| 0 <= i < |ids[1..]| && ids[1..][i].0 == cc;
          assert ids[i + 1].0 == cc;
        }
      }
      r
  }

  lemma ContainsConcat(a: IdMap, b: IdMap, cc: Country)
    ensures Contains(a + b, cc) <==> Contains(a, cc) || Contains(b, cc)
  {
    if Contains(a + b, cc) {
      var i :| 0 <= i < |a + b| && (a + b)[i].0 == cc;
      if i >= |a| {
        assert b[i - |a|].0 == cc;
      }
    }
    if Contains(a, cc) {
      var i :| 0 <= i < |a| && a[i].0 == cc;
      assert (a + b)[i].0 == cc;
    }
    if Contains(b, cc) {
      var i :| 0 <= i < |b| && b[i].0 == cc;
      assert (a + b)[|a| + i].0 == cc;
    }
  }

  /** Appending entries after a key never changes what that key maps to. */
  lemma {:induction false} LookupPrefix(ids: IdMap, more: IdMap, cc: Country)
    requires Contains(ids, cc)
    ensures Lookup(ids + more, cc) == Lookup(ids, cc)
  {
    if ids[0].0 != cc {
      assert (ids + more)[1..] == ids[1..] + more;
      ContainsConcat([ids[0]], ids[1..], cc);
      assert [ids[0]] + ids[1..] == ids;
      LookupPrefix(ids[1..], more, cc);
    }
  }

  /** Appending a new key keeps the keys distinct. */
  lemma AppendNewKey(ids: IdMap, cc: Country, p: Pair)
    requires DistinctKeys(ids) && !Contains(ids, cc)
    ensures DistinctKeys(ids + [(cc, p)])
  {
    var ids' := ids + [(cc, p)];
    forall i, j | 0 <= i < j < |ids'|
      ensures ids'[i].0 != ids'[j].0
    {
      if j == |ids| {
        assert ids[i].0 != cc;
      }
    }
  }

  /** What a file on disk holds: nothing, content that does not parse, or a
      parsed document. */
  datatype StoredFile<T> = Missing | Corrupt | Holds(content: T)

  /** The result of `load_ids`: a value, or the process ends with an exit code. */
  datatype Loaded<T> = Loaded(value: T) | Fatal(exitCode: int)

  /** `load_ids`: an empty collection when there is no file, exit(1) when the
      content does not parse, the parsed content otherwise. */
  function LoadIds<T>(file: StoredFile<seq<T>>): (r: Loaded<seq<T>>)
    ensures r.Fatal? <==> file.Corrupt?
    ensures r.Fatal? ==> r.exitCode == 1
    ensures file.Missing? ==> r == Loaded([])
    ensures file.Holds? ==> r == Loaded(file.content)
  {
    match file
    case Missing => Loaded([])
    case Corrupt => Fatal(1)
    case Holds(content) => Loaded(content)
  }

  /** `save_ids`: the file is overwritten with the serialization of the
      whole collection, which a later `load_ids` reads back unchanged. */
  function SaveIds<T>(ids: seq<T>): (file: StoredFile<seq<T>>)
    ensures file.Holds? && LoadIds(file) == Loaded(ids)
  {
    Holds(ids)
  }
}
