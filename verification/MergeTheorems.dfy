/** When the merge says ok, and what that says about every node of the census. */
module MergeTheorems {
  import opened Wrappers
  import opened Order
  import opened Text
  import opened ShardPlan
  import opened Partition
  import opened Merge

  /** Everything the plan promises about one shard, in terms of what the shard left. */
  ghost predicate ShardHolds(slice: Slice, e: Evidence, key: string -> Key) {
    && Complete(e)
    && multiset(Ids(e.census.value)) == multiset(slice.ids)
    && Distinct(CaseKeys(e.junit.value))
    && KeySet(e.junit.value) == Wanted(slice.ids, key)
    && (Strip(e.exitStatus.value) == "0" <==> Failed !in Statuses(e.junit.value))
    && e.progress.value == Progress(true, Some(|slice.ids|))
    && true !in e.refused
  }

  lemma SortedEqualIff(a: seq<string>, b: seq<string>)
    ensures SortStrings(a) == SortStrings(b) <==> multiset(a) == multiset(b)
  {
    SortPermutes(a, StringLeq);
    SortPermutes(b, StringLeq);
    if multiset(a) == multiset(b) {
      StringOrder();
      SortIgnoresOrder(a, b, StringLeq);
    }
  }

  lemma ShardProblemsIff(slice: Slice, e: Evidence, key: string -> Key)
    ensures ShardProblems(slice, e, key) == [] <==> ShardHolds(slice, e, key)
  {
    if Complete(e) {
      var cases := e.junit.value;
      SortedEqualIff(Ids(e.census.value), slice.ids);
      KeysAtMostCases(cases);
      assert CountOf(Statuses(cases), Failed) == 0 <==> Failed !in Statuses(cases);
      assert CountOf(e.refused, true) > 0 <==> true in e.refused;
    }
  }

  lemma {:induction false} ConcatEmptyIff<T>(lists: seq<seq<T>>, n: nat)
    requires n <= |lists|
    ensures Concat(lists, n) == [] <==> forall k :: 0 <= k < n ==> lists[k] == []
  {
    if n > 0 {
      ConcatEmptyIff(lists, n - 1);
    }
  }

  ghost predicate EveryShardHolds(slices: seq<Slice>, evidence: seq<Evidence>, key: string -> Key)
    requires |slices| == |evidence|
  {
    forall k :: 0 <= k < |slices| ==> ShardHolds(slices[k], evidence[k], key)
  }

  lemma NoShardProblemIff(slices: seq<Slice>, evidence: seq<Evidence>, key: string -> Key)
    requires |slices| == |evidence|
    ensures Concat(ProblemLists(slices, evidence, key), |slices|) == [] <==> EveryShardHolds(slices, evidence, key)
  {
    var lists := ProblemLists(slices, evidence, key);
    ConcatEmptyIff(lists, |slices|);
    forall k | 0 <= k < |slices| ensures lists[k] == [] <==> ShardHolds(slices[k], evidence[k], key) {
      ShardProblemsIff(slices[k], evidence[k], key);
    }
  }

  // ---------------------------------------------------------------- Totals

  /** The numbers of failed, skipped and passed results. */
  ghost predicate CountsAre(t: Totals, n: nat, s: seq<Status>) {
    && t.failures + t.errors == CountOf(s, Failed)
    && t.skipped == CountOf(s, Skipped)
    && n - t.failures - t.errors - t.skipped == CountOf(s, Passed)
  }

  lemma OneMoreCounted(t: Totals, n: nat, s: seq<Status>, children: seq<Tag>)
    requires CountsAre(t, n, s)
    ensures CountsAre(AddCase(t, children), n + 1, s + [StatusOf(children)])
  {
    assert multiset(s + [StatusOf(children)]) == multiset(s) + multiset{StatusOf(children)};
  }

  lemma {:induction false} TotalsMatchStatuses(cases: seq<Case>, n: nat)
    requires n <= |cases|
    ensures var t, s := TotalsOf(cases, n), Statuses(cases)[..n];
      && t.tests == |cases|
      && t.failures + t.errors == CountOf(s, Failed)
      && t.skipped == CountOf(s, Skipped)
      && n - t.failures - t.errors - t.skipped == CountOf(s, Passed)
  {
    if n > 0 {
      TotalsMatchStatuses(cases, n - 1);
      OneMoreCounted(TotalsOf(cases, n - 1), n - 1, Statuses(cases)[..n - 1], cases[n - 1].children);
      TakeOneMore(Statuses(cases), n - 1);
    }
  }

  /** Sums over the shards that reported. */
  function Add(a: Report, r: Option<Report>): Report {
    match r
    case None => a
    case Some(b) => Report(a.results + b.results, a.passed + b.passed, a.failed + b.failed, a.skipped + b.skipped)
  }

  function SumOfReports(reports: seq<Option<Report>>, n: nat): Report
    requires n <= |reports|
  {
    if n == 0 then Report(0, 0, 0, 0) else Add(SumOfReports(reports, n - 1), reports[n - 1])
  }

  lemma TallyConcat(a: seq<Case>, b: seq<Case>)
    ensures Tally(Statuses(a + b)) == Add(Tally(Statuses(a)), Some(Tally(Statuses(b))))
  {
    assert Statuses(a + b) == Statuses(a) + Statuses(b);
  }

  ghost predicate Reported(report: Option<Report>, cases: seq<Case>) {
    report == Some(Tally(Statuses(cases))) || (report == None && cases == [])
  }

  lemma {:induction false} ReportsAddUp(reports: seq<Option<Report>>, lists: seq<seq<Case>>, n: nat)
    requires n <= |reports| == |lists| && forall k :: 0 <= k < n ==> Reported(reports[k], lists[k])
    ensures SumOfReports(reports, n) == Tally(Statuses(Concat(lists, n)))
  {
    if n > 0 {
      ReportsAddUp(reports, lists, n - 1);
      assert Reported(reports[n - 1], lists[n - 1]);
      TallyConcat(Concat(lists, n - 1), lists[n - 1]);
      if lists[n - 1] == [] {
        assert Concat(lists, n) == Concat(lists, n - 1);
      }
    }
  }

  /** Whatever the verdict, the shard reports add up to the merged totals. */
  lemma Conservation(d: Document, census: seq<Record>, evidence: seq<Evidence>, key: string -> Key,
                     digest: seq<string> -> string)
    requires |evidence| == |d.slices|
    ensures var audit := MergeOf(d, census, evidence, key, digest);
      var sum := SumOfReports(audit.reports, |audit.reports|);
      && sum.results == audit.totals.tests == sum.passed + sum.failed + sum.skipped
      && sum.failed == audit.totals.failures + audit.totals.errors
      && sum.skipped == audit.totals.skipped
  {
    var cases := MergedCases(evidence);
    assert forall k :: 0 <= k < |evidence| ==> Reported(Reports(evidence)[k], CaseLists(evidence)[k]);
    ReportsAddUp(Reports(evidence), CaseLists(evidence), |evidence|);
    TotalsMatchStatuses(cases, |cases|);
    assert Statuses(cases)[..|cases|] == Statuses(cases);
  }

  // ---------------------------------------------------------------- The verdict

  ghost predicate NothingFailed(cases: seq<Case>) {
    forall i :: 0 <= i < |cases| ==> StatusOf(cases[i].children) != Failed
  }

  /** The promise of the merge, shard by shard and over all of them. */
  ghost predicate AuditHolds(d: Document, census: seq<Record>, evidence: seq<Evidence>, key: string -> Key,
                             digest: seq<string> -> string)
    requires |evidence| == |d.slices|
  {
    && ExactPartition(d.slices, Ids(census))
    && d.censusDigest == digest(SortStrings(Ids(census)))
    && EveryShardHolds(d.slices, evidence, key)
    && multiset(AllTiers(census)) == multiset(AllTiers(Executed(evidence)))
    && NothingFailed(MergedCases(evidence))
  }

  lemma NothingFailedIff(cases: seq<Case>)
    ensures var t := TotalsOf(cases, |cases|);
      t.failures == 0 && t.errors == 0 <==> NothingFailed(cases)
  {
    TotalsMatchStatuses(cases, |cases|);
    var s := Statuses(cases);
    assert s[..|cases|] == s;
    assert CountOf(s, Failed) == 0 <==> Failed !in s;
    if Failed in s {
      var i :| 0 <= i < |s| && s[i] == Failed;
    }
    forall i | 0 <= i < |cases| && StatusOf(cases[i].children) == Failed ensures Failed in s {
      assert s[i] == Failed;
    }
  }

  /** The audit is sound and complete. */
  lemma MergeOkIff(d: Document, census: seq<Record>, evidence: seq<Evidence>, key: string -> Key,
                   digest: seq<string> -> string)
    requires |evidence| == |d.slices|
    ensures MergeOf(d, census, evidence, key, digest).ok <==> AuditHolds(d, census, evidence, key, digest)
  {
    var executed := Executed(evidence);
    CheckIff(d.slices, d.censusDigest, Ids(census), digest);
    NoShardProblemIff(d.slices, evidence, key);
    TierTablesAgreeIff(census, executed);
    NothingFailedIff(MergedCases(evidence));
    var found := CheckOf(d.slices, d.censusDigest, Ids(census), digest);
    assert Wrapped(found) == [] <==> found == [];
  }

  // ---------------------------------------------------------------- One result per node

  ghost predicate InjectiveOn(key: string -> Key, ids: seq<string>) {
    forall a, b :: a in ids && b in ids && key(a) == key(b) ==> a == b
  }

  lemma WantedKeys(ids: seq<string>, key: string -> Key, k: Key)
    ensures k in Each(ids, key) <==> k in Wanted(ids, key)
  {
    if k in Wanted(ids, key) {
      var id :| id in ids && key(id) == k;
      var i :| 0 <= i < |ids| && ids[i] == id;
      assert Each(ids, key)[i] == k;
    }
  }

  lemma DistinctKeysIff(ids: seq<string>, key: string -> Key)
    requires Distinct(ids)
    ensures Distinct(Each(ids, key)) <==> InjectiveOn(key, ids)
  {
    var keys := Each(ids, key);
    if Distinct(keys) {
      forall a, b | a in ids && b in ids && key(a) == key(b) ensures a == b {
        var i :| 0 <= i < |ids| && ids[i] == a;
        var j :| 0 <= j < |ids| && ids[j] == b;
        assert keys[i] == keys[j];
      }
    }
    if InjectiveOn(key, ids) {
      forall i, j | 0 <= i < j < |keys| ensures keys[i] != keys[j] {
        assert ids[i] in ids && ids[j] in ids;
      }
    }
  }

  /** A shard that passes has as many results as nodes exactly when the result key tells its nodes apart. */
  lemma OneResultPerNodeIff(slice: Slice, e: Evidence, key: string -> Key)
    requires ShardHolds(slice, e, key) && Distinct(slice.ids)
    ensures |e.junit.value| == |slice.ids| <==> InjectiveOn(key, slice.ids)
  {
    var found, planned := CaseKeys(e.junit.value), Each(slice.ids, key);
    DistinctKeysIff(slice.ids, key);
    DistinctIffNoCollapse(found);
    DistinctIffNoCollapse(planned);
    assert (set k | k in found) == (set k | k in planned) by {
      forall k ensures k in found <==> k in planned {
        WantedKeys(slice.ids, key, k);
        assert k in found <==> k in KeySet(e.junit.value);
      }
    }
  }

  lemma ShardKeysMatch(slice: Slice, e: Evidence, key: string -> Key)
    requires ShardHolds(slice, e, key) && Distinct(slice.ids) && InjectiveOn(key, slice.ids)
    ensures multiset(CaseKeys(e.junit.value)) == multiset(Each(slice.ids, key))
  {
    var found, planned := CaseKeys(e.junit.value), Each(slice.ids, key);
    DistinctKeysIff(slice.ids, key);
    forall k ensures k in found <==> k in planned {
      WantedKeys(slice.ids, key, k);
      assert k in found <==> k in KeySet(e.junit.value);
    }
    DistinctSameElements(found, planned);
  }

  lemma {:induction false} MergedKeysMatch(slices: seq<Slice>, evidence: seq<Evidence>, key: string -> Key, n: nat)
    requires n <= |slices| == |evidence| && Distinct(Flat(slices, n)) && InjectiveOn(key, Flat(slices, n))
    requires EveryShardHolds(slices, evidence, key)
    ensures multiset(CaseKeys(Concat(CaseLists(evidence), n))) == multiset(Each(Flat(slices, n), key))
  {
    if n > 0 {
      var before, slice := Flat(slices, n - 1), slices[n - 1];
      var e := evidence[n - 1];
      assert forall id :: id in before || id in slice.ids ==> id in before + slice.ids;
      DistinctSplit(before, slice.ids);
      MergedKeysMatch(slices, evidence, key, n - 1);
      assert ShardHolds(slice, e, key);
      ShardKeysMatch(slice, e, key);
      KeysConcat(before, slice.ids, key, Concat(CaseLists(evidence), n - 1), CasesOf(e));
    }
  }

  lemma KeysConcat(ids: seq<string>, ids': seq<string>, key: string -> Key, cases: seq<Case>, cases': seq<Case>)
    requires multiset(CaseKeys(cases)) == multiset(Each(ids, key))
    requires multiset(CaseKeys(cases')) == multiset(Each(ids', key))
    ensures multiset(CaseKeys(cases + cases')) == multiset(Each(ids + ids', key))
  {
    assert Each(ids + ids', key) == Each(ids, key) + Each(ids', key);
    assert CaseKeys(cases + cases') == CaseKeys(cases) + CaseKeys(cases');
  }

  /** When the merge says ok and the result key tells the census nodes apart, the merged results are the keys
      of the census nodes, each once. */
  lemma MergedResultsAreTheCensus(d: Document, census: seq<Record>, evidence: seq<Evidence>, key: string -> Key,
                                  digest: seq<string> -> string)
    requires |evidence| == |d.slices| && MergeOf(d, census, evidence, key, digest).ok && InjectiveOn(key, Ids(census))
    ensures var keys := CaseKeys(MergedCases(evidence));
      Distinct(keys) && forall k :: k in keys <==> k in Wanted(Ids(census), key)
  {
    var n := |d.slices|;
    MergeOkIff(d, census, evidence, key, digest);
    var flat, keys := Flat(d.slices, n), CaseKeys(MergedCases(evidence));
    MergedKeysMatch(d.slices, evidence, key, n);
    DistinctKeysIff(flat, key);
    DistinctSurvivesPermutation(Each(flat, key), keys);
    forall k ensures k in keys <==> k in Wanted(Ids(census), key) {
      assert k in keys <==> k in multiset(keys);
      assert k in Each(flat, key) <==> k in multiset(Each(flat, key));
      WantedKeys(flat, key, k);
    }
  }

  ghost predicate SameKeys(ids: seq<string>, key: string -> Key, cases: seq<Case>) {
    forall k :: k in CaseKeys(cases) <==> k in Each(ids, key)
  }

  lemma ShardHasSameKeys(slice: Slice, e: Evidence, key: string -> Key)
    requires ShardHolds(slice, e, key)
    ensures SameKeys(slice.ids, key, CasesOf(e))
  {
    forall k ensures k in CaseKeys(CasesOf(e)) <==> k in Each(slice.ids, key) {
      WantedKeys(slice.ids, key, k);
      assert k in CaseKeys(CasesOf(e)) <==> k in KeySet(e.junit.value);
    }
  }

  lemma SameKeysConcat(ids: seq<string>, ids': seq<string>, key: string -> Key, cases: seq<Case>, cases': seq<Case>)
    requires SameKeys(ids, key, cases) && SameKeys(ids', key, cases')
    ensures SameKeys(ids + ids', key, cases + cases')
  {
    assert Each(ids + ids', key) == Each(ids, key) + Each(ids', key);
    assert CaseKeys(cases + cases') == CaseKeys(cases) + CaseKeys(cases');
  }

  lemma {:induction false} SameKeysAddUp(slices: seq<Slice>, lists: seq<seq<Case>>, key: string -> Key, n: nat)
    requires n <= |slices| == |lists| && forall i :: 0 <= i < n ==> SameKeys(slices[i].ids, key, lists[i])
    ensures SameKeys(Flat(slices, n), key, Concat(lists, n))
  {
    if n > 0 {
      SameKeysAddUp(slices, lists, key, n - 1);
      SameKeysConcat(Flat(slices, n - 1), slices[n - 1].ids, key, Concat(lists, n - 1), lists[n - 1]);
    }
  }

  lemma MergedHasSameKeys(slices: seq<Slice>, evidence: seq<Evidence>, key: string -> Key)
    requires |slices| == |evidence| && EveryShardHolds(slices, evidence, key)
    ensures SameKeys(Flat(slices, |slices|), key, MergedCases(evidence))
  {
    forall i | 0 <= i < |slices| ensures SameKeys(slices[i].ids, key, CaseLists(evidence)[i]) {
      ShardHasSameKeys(slices[i], evidence[i], key);
    }
    SameKeysAddUp(slices, CaseLists(evidence), key, |slices|);
  }

  /** As many results as ids, and no two of one key. */
  lemma OneResultPerIdIff(ids: seq<string>, key: string -> Key, cases: seq<Case>)
    requires Distinct(ids) && SameKeys(ids, key, cases)
    ensures Distinct(CaseKeys(cases)) && |cases| == |ids| ==> InjectiveOn(key, ids)
    ensures Distinct(CaseKeys(cases)) && InjectiveOn(key, ids) ==> |cases| == |ids|
  {
    var keys, planned := CaseKeys(cases), Each(ids, key);
    assert (set k | k in keys) == (set k | k in planned);
    DistinctIffNoCollapse(keys);
    DistinctIffNoCollapse(planned);
    DistinctKeysIff(ids, key);
  }

  lemma SameElementsSameNumber(ids: seq<string>, all: seq<string>)
    requires Distinct(ids) && forall id :: id in ids <==> id in all
    ensures |ids| == |Elements(all)|
  {
    assert (set id | id in ids) == Elements(all);
    DistinctIffNoCollapse(ids);
  }

  /** When the merge says ok, the plan lists every node of the census once, and the merged results have the keys of
      these nodes. */
  lemma OkMeansSameKeys(d: Document, census: seq<Record>, evidence: seq<Evidence>, key: string -> Key,
                        digest: seq<string> -> string)
    requires |evidence| == |d.slices| && MergeOf(d, census, evidence, key, digest).ok
    ensures var flat := Flat(d.slices, |d.slices|);
      && Distinct(flat) && (forall id :: id in flat <==> id in Ids(census))
      && SameKeys(flat, key, MergedCases(evidence))
  {
    MergeOkIff(d, census, evidence, key, digest);
    MergedHasSameKeys(d.slices, evidence, key);
  }

  /** When the merge says ok, there is one result for every node of the census, and no two of one key, exactly when
      the result key tells the census nodes apart. */
  lemma OneResultPerCensusNodeIff(d: Document, census: seq<Record>, evidence: seq<Evidence>, key: string -> Key,
                                  digest: seq<string> -> string)
    requires |evidence| == |d.slices| && MergeOf(d, census, evidence, key, digest).ok
    ensures Distinct(CaseKeys(MergedCases(evidence))) && |MergedCases(evidence)| == |Elements(Ids(census))|
       <==> InjectiveOn(key, Ids(census))
  {
    var flat, ids := Flat(d.slices, |d.slices|), Ids(census);
    OkMeansSameKeys(d, census, evidence, key, digest);
    SameElementsSameNumber(flat, ids);
    OneResultPerIdIff(flat, key, MergedCases(evidence));
    assert InjectiveOn(key, flat) <==> InjectiveOn(key, ids);
    if InjectiveOn(key, ids) {
      MergedResultsAreTheCensus(d, census, evidence, key, digest);
    }
  }

  lemma TheOneResult(cases: seq<Case>, k: Key) returns (i: nat)
    requires NothingFailed(cases) && Distinct(CaseKeys(cases)) && k in CaseKeys(cases)
    ensures i < |cases| && cases[i].key == k && StatusOf(cases[i].children) in {Passed, Skipped}
    ensures forall j :: 0 <= j < |cases| && cases[j].key == k ==> j == i
  {
    var keys := CaseKeys(cases);
    i :| 0 <= i < |keys| && keys[i] == k;
    assert forall j :: 0 <= j < |cases| ==> cases[j].key == keys[j];
  }

  /** Every node of the census then has exactly one terminal result, and it is passed or skipped. */
  lemma EveryNodeHasOneResult(d: Document, census: seq<Record>, evidence: seq<Evidence>, key: string -> Key,
                              digest: seq<string> -> string, id: string) returns (i: nat)
    requires |evidence| == |d.slices| && MergeOf(d, census, evidence, key, digest).ok
    requires InjectiveOn(key, Ids(census)) && id in Ids(census)
    ensures var cases := MergedCases(evidence);
      && i < |cases| && cases[i].key == key(id)
      && StatusOf(cases[i].children) in {Passed, Skipped}
      && forall j :: 0 <= j < |cases| && cases[j].key == key(id) ==> j == i
  {
    var cases := MergedCases(evidence);
    assert NothingFailed(cases) by {
      MergeOkIff(d, census, evidence, key, digest);
    }
    MergedResultsAreTheCensus(d, census, evidence, key, digest);
    i := TheOneResult(cases, key(id));
  }

  /** Two nodes with one key: a shard that says both are done and reports one result passes its audit. */
  lemma CollisionAcceptsOneResult(shard: string, a: string, b: string, key: string -> Key) returns (e: Evidence)
    requires a != b && key(a) == key(b)
    ensures ShardProblems(Slice(shard, [a, b]), e, key) == [] && |e.junit.value| == 1
  {
    var slice, cases := Slice(shard, [a, b]), [Case(key(a), [])];
    var collected, progress := [Record(a, []), Record(b, [])], Progress(true, Some(2));
    e := Evidence(Some(cases), Some(collected), Some(progress), true, Some("0"), []);
    assert Ids(e.census.value) == slice.ids;
    assert CaseKeys(cases) == [key(a)];
    assert KeySet(cases) == {key(a)} == Wanted(slice.ids, key);
    assert Statuses(cases) == [Passed];
    assert Strip("0") == "0";
    ShardProblemsIff(slice, e, key);
  }
}
