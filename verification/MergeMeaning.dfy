/** The merge in plain terms: its verdict, its problems, its reports and its totals, in terms of the evidence alone. */
module MergeMeaning {
  import opened Wrappers
  import opened Order
  import opened Text
  import opened ShardPlan
  import opened Partition
  import opened Merge
  import opened MergeTheorems

  // ---------------------------------------------------------------- One shard

  /** The shard left all five of its files. */
  ghost predicate LeftAllFiles(e: Evidence) {
    && e.junit != None && e.census != None && e.progress != None && e.hasSkips && e.exitStatus != None
  }

  ghost predicate Fails(c: Case) {
    Failure in c.children || Error in c.children
  }

  ghost function Keys(cases: seq<Case>): set<Key> {
    set i | 0 <= i < |cases| :: cases[i].key
  }

  ghost function Planned(slice: Slice, key: string -> Key): set<Key> {
    set i | 0 <= i < |slice.ids| :: key(slice.ids[i])
  }

  ghost function Failing(cases: seq<Case>): nat {
    |set i | 0 <= i < |cases| && Fails(cases[i])|
  }

  ghost function Refusals(refused: seq<bool>): nat {
    |set i | 0 <= i < |refused| && refused[i]|
  }

  /** The problem is one that this shard has. */
  ghost predicate HasProblem(slice: Slice, e: Evidence, key: string -> Key, q: MergeProblem) {
    if !LeftAllFiles(e) then q == DidNotFinish(slice.id)
    else
      var cases, keys, planned := e.junit.value, Keys(e.junit.value), Planned(slice, key);
      match q
      case CollectedDiffers(shard) => shard == slice.id && multiset(Ids(e.census.value)) != multiset(slice.ids)
      case ManyResults(shard, extra) => shard == slice.id && extra == |cases| - |keys| && extra != 0
      case ResultsDiffer(shard, missing, unplanned) =>
        shard == slice.id && missing == |planned - keys| && unplanned == |keys - planned| && keys != planned
      case ExitContradicts(shard, failing) =>
        && shard == slice.id && failing == Failing(cases)
        && ((Strip(e.exitStatus.value) == "0" && failing != 0) || (Strip(e.exitStatus.value) != "0" && failing == 0))
      case ProgressDiffers(shard) =>
        shard == slice.id && (!e.progress.value.finished || e.progress.value.done != Some(|slice.ids|))
      case DockerRefused(shard, calls) => shard == slice.id && calls == Refusals(e.refused) && calls != 0
      case _ => false
  }

  ghost function Places<T(!new)>(s: seq<T>, x: T): set<int> {
    set i | 0 <= i < |s| && s[i] == x
  }

  lemma {:induction false} CountIsSize<T(!new)>(s: seq<T>, x: T)
    ensures multiset(s)[x] == |Places(s, x)|
  {
    if s != [] {
      var n := |s| - 1;
      CountIsSize(s[..n], x);
      assert s == s[..n] + [s[n]];
      assert Places(s, x) == Places(s[..n], x) + if s[n] == x then {n} else {};
    }
  }

  lemma FailingIs(cases: seq<Case>)
    ensures CountOf(Statuses(cases), Failed) == Failing(cases)
  {
    CountIsSize(Statuses(cases), Failed);
    assert Places(Statuses(cases), Failed) == set i | 0 <= i < |cases| && Fails(cases[i]);
  }

  lemma RefusalsAre(refused: seq<bool>)
    ensures CountOf(refused, true) == Refusals(refused)
  {
    CountIsSize(refused, true);
    assert Places(refused, true) == set i | 0 <= i < |refused| && refused[i];
  }

  lemma KeysAre(slice: Slice, cases: seq<Case>, key: string -> Key)
    ensures KeySet(cases) == Keys(cases) && Wanted(slice.ids, key) == Planned(slice, key)
  {
    assert forall i :: 0 <= i < |cases| ==> CaseKeys(cases)[i] == cases[i].key;
    assert forall k :: k in KeySet(cases) <==> k in CaseKeys(cases);
  }

  /** The problems of one shard, each with its condition and its numbers. */
  lemma ShardProblemsAre(slice: Slice, e: Evidence, key: string -> Key, q: MergeProblem)
    ensures q in ShardProblems(slice, e, key) <==> HasProblem(slice, e, key, q)
  {
    if LeftAllFiles(e) {
      KeysAtMostCases(e.junit.value);
      ResultProblemsAre(slice, e, key, q);
      RunProblemsAre(slice, e, key, q);
    }
  }

  ghost predicate OfResults(q: MergeProblem) {
    q.CollectedDiffers? || q.ManyResults? || q.ResultsDiffer?
  }

  lemma ResultProblemsAre(slice: Slice, e: Evidence, key: string -> Key, q: MergeProblem)
    requires LeftAllFiles(e) && |KeySet(e.junit.value)| <= |e.junit.value|
    ensures var collected := SortStrings(Ids(e.census.value)) == SortStrings(slice.ids);
      q in ResultProblems(slice.id, collected, |e.junit.value|, KeySet(e.junit.value), Wanted(slice.ids, key)) <==>
      OfResults(q) && HasProblem(slice, e, key, q)
  {
    var cases, collected := e.junit.value, SortStrings(Ids(e.census.value)) == SortStrings(slice.ids);
    KeysAre(slice, cases, key);
    SortedEqualIff(Ids(e.census.value), slice.ids);
    InResultProblems(slice.id, collected, |cases|, KeySet(cases), Wanted(slice.ids, key), q);
  }

  lemma InResultProblems(shard: string, collected: bool, results: nat, keys: set<Key>, wanted: set<Key>,
                         q: MergeProblem)
    requires |keys| <= results
    ensures q in ResultProblems(shard, collected, results, keys, wanted) <==>
            || (q == CollectedDiffers(shard) && !collected)
            || (q == ManyResults(shard, results - |keys|) && results != |keys|)
            || (q == ResultsDiffer(shard, |wanted - keys|, |keys - wanted|) && keys != wanted)
  {}

  lemma RunProblemsAre(slice: Slice, e: Evidence, key: string -> Key, q: MergeProblem)
    requires LeftAllFiles(e)
    ensures q in RunProblems(slice, Statuses(e.junit.value), e.exitStatus.value, e.progress.value, e.refused) <==>
            !OfResults(q) && HasProblem(slice, e, key, q)
  {
    FailingIs(e.junit.value);
    RefusalsAre(e.refused);
  }

  // ---------------------------------------------------------------- All problems

  lemma {:induction false} InConcat<T>(lists: seq<seq<T>>, n: nat, x: T)
    requires n <= |lists|
    ensures x in Concat(lists, n) <==> exists k :: 0 <= k < n && x in lists[k]
  {
    if n > 0 { InConcat(lists, n - 1, x); }
  }

  /** The problems of a merge: those of the partition, those of the shards, and different tiers. */
  lemma MergeProblemsAre(d: Document, census: seq<Record>, evidence: seq<Evidence>, key: string -> Key,
                         digest: seq<string> -> string, q: MergeProblem)
    requires |evidence| == |d.slices|
    ensures q in MergeOf(d, census, evidence, key, digest).problems <==>
      || (q.Audit? && q.problem in CheckOf(d.slices, d.censusDigest, Ids(census), digest))
      || (exists k :: 0 <= k < |evidence| && HasProblem(d.slices[k], evidence[k], key, q))
      || (q == TiersDiffer && multiset(AllTiers(census)) != multiset(AllTiers(Executed(evidence))))
  {
    var found := CheckOf(d.slices, d.censusDigest, Ids(census), digest);
    var lists := ProblemLists(d.slices, evidence, key);
    assert q in Wrapped(found) <==> q.Audit? && q.problem in found by {
      if q.Audit? && q.problem in found {
        var i :| 0 <= i < |found| && found[i] == q.problem;
        assert Wrapped(found)[i] == q;
      }
    }
    InConcat(lists, |evidence|, q);
    forall k | 0 <= k < |evidence| ensures q in lists[k] <==> HasProblem(d.slices[k], evidence[k], key, q) {
      ShardProblemsAre(d.slices[k], evidence[k], key, q);
    }
    TierTablesAgreeIff(census, Executed(evidence));
  }

  /** The place of a problem among those of its shard. */
  ghost function Rank(q: MergeProblem): nat {
    match q
    case CollectedDiffers(_) => 1
    case ManyResults(_, _) => 2
    case ResultsDiffer(_, _, _) => 3
    case ExitContradicts(_, _) => 4
    case ProgressDiffers(_) => 5
    case DockerRefused(_, _) => 6
    case _ => 0
  }

  ghost predicate Ascend(problems: seq<MergeProblem>) {
    forall i, j :: 0 <= i < j < |problems| ==> Rank(problems[i]) < Rank(problems[j])
  }

  lemma ResultProblemsAscend(shard: string, collected: bool, results: nat, keys: set<Key>, wanted: set<Key>)
    requires |keys| <= results
    ensures Ascend(ResultProblems(shard, collected, results, keys, wanted))
    ensures forall q :: q in ResultProblems(shard, collected, results, keys, wanted) ==> Rank(q) <= 3
  {}

  lemma RunProblemsAscend(slice: Slice, statuses: seq<Status>, exitStatus: string, progress: Merge.Progress,
                          refused: seq<bool>)
    ensures Ascend(RunProblems(slice, statuses, exitStatus, progress, refused))
    ensures forall q :: q in RunProblems(slice, statuses, exitStatus, progress, refused) ==> Rank(q) > 3
  {}

  lemma AscendConcat(a: seq<MergeProblem>, b: seq<MergeProblem>)
    requires Ascend(a) && Ascend(b)
    requires (forall q :: q in a ==> Rank(q) <= 3) && (forall q :: q in b ==> Rank(q) > 3)
    ensures Ascend(a + b)
  {
    var all := a + b;
    forall i, j | 0 <= i < j < |all| ensures Rank(all[i]) < Rank(all[j]) {
      if i < |a| { assert a[i] in a; }
      if j >= |a| { assert b[j - |a|] in b; }
    }
  }

  /** A shard has its problems in this order, and none twice. */
  lemma ShardProblemsDiffer(slice: Slice, e: Evidence, key: string -> Key)
    ensures Ascend(ShardProblems(slice, e, key)) && Distinct(ShardProblems(slice, e, key))
  {
    if LeftAllFiles(e) {
      var cases := e.junit.value;
      var collected := SortStrings(Ids(e.census.value)) == SortStrings(slice.ids);
      KeysAtMostCases(cases);
      ResultProblemsAscend(slice.id, collected, |cases|, KeySet(cases), Wanted(slice.ids, key));
      RunProblemsAscend(slice, Statuses(cases), e.exitStatus.value, e.progress.value, e.refused);
      AscendConcat(ResultProblems(slice.id, collected, |cases|, KeySet(cases), Wanted(slice.ids, key)),
                   RunProblems(slice, Statuses(cases), e.exitStatus.value, e.progress.value, e.refused));
    }
    DistinctIfAscending(ShardProblems(slice, e, key));
  }

  lemma DistinctIfAscending(problems: seq<MergeProblem>)
    requires Ascend(problems)
    ensures Distinct(problems)
  {
    forall i, j | 0 <= i < j < |problems| ensures problems[i] != problems[j] {
      assert Rank(problems[i]) < Rank(problems[j]);
    }
  }

  /** Where a problem comes from: the partition, a shard counted from 1, or the tiers, after all shards. */
  ghost predicate ComesFrom(d: Document, evidence: seq<Evidence>, key: string -> Key, o: nat, q: MergeProblem)
    requires |evidence| == |d.slices|
  {
    if o == 0 then q.Audit?
    else if o <= |evidence| then HasProblem(d.slices[o - 1], evidence[o - 1], key, q)
    else q == TiersDiffer
  }

  /** Problems stand by origin, and those of one shard by rank. */
  ghost predicate InOrder(problems: seq<MergeProblem>, origin: seq<nat>) {
    && |origin| == |problems|
    && forall i, j :: 0 <= i < j < |problems| ==>
         || origin[i] < origin[j]
         || (origin[i] == origin[j] && (origin[i] == 0 || Rank(problems[i]) < Rank(problems[j])))
  }

  lemma {:induction false} ListsInOrder(lists: seq<seq<MergeProblem>>, n: nat) returns (origin: seq<nat>)
    requires n <= |lists| && forall k :: 0 <= k < |lists| ==> Ascend(lists[k])
    ensures InOrder(Concat(lists, n), origin)
    ensures forall i :: 0 <= i < |origin| ==> 1 <= origin[i] <= n && Concat(lists, n)[i] in lists[origin[i] - 1]
  {
    if n == 0 {
      origin := [];
    } else {
      var earlier := ListsInOrder(lists, n - 1);
      var last := lists[n - 1];
      origin := earlier + seq(|last|, _ => n);
      assert Concat(lists, n) == Concat(lists, n - 1) + last && Ascend(last);
    }
  }

  /** The problems of a merge in order: those of the partition as they were found, those of the shards in plan order,
      and different tiers. */
  lemma MergeProblemsInOrder(d: Document, census: seq<Record>, evidence: seq<Evidence>, key: string -> Key,
                             digest: seq<string> -> string) returns (origin: seq<nat>)
    requires |evidence| == |d.slices|
    ensures var problems := MergeOf(d, census, evidence, key, digest).problems;
      var found := CheckOf(d.slices, d.censusDigest, Ids(census), digest);
      && InOrder(problems, origin) && |problems| >= |found| && AllComeFrom(d, evidence, key, origin, problems)
      && forall i :: 0 <= i < |found| ==> problems[i] == Audit(found[i])
  {
    var found := CheckOf(d.slices, d.censusDigest, Ids(census), digest);
    var shards := Concat(ProblemLists(d.slices, evidence, key), |evidence|);
    var same := TierCounts(census, |census|) == TierCounts(Executed(evidence), |Executed(evidence)|);
    var inner := ShardsInOrder(d, evidence, key);
    origin := JoinComesFrom(d, evidence, key, found, shards, inner, same);
    assert MergeOf(d, census, evidence, key, digest).problems == JoinProblems(found, shards, same);
  }

  ghost predicate AllComeFrom(d: Document, evidence: seq<Evidence>, key: string -> Key, origin: seq<nat>,
                              problems: seq<MergeProblem>)
    requires |evidence| == |d.slices| && |origin| == |problems|
  {
    forall i :: 0 <= i < |problems| ==> ComesFrom(d, evidence, key, origin[i], problems[i])
  }

  lemma JoinComesFrom(d: Document, evidence: seq<Evidence>, key: string -> Key, found: seq<Problem>,
                      shards: seq<MergeProblem>, inner: seq<nat>, same: bool) returns (origin: seq<nat>)
    requires |evidence| == |d.slices| && InOrder(shards, inner) && AllComeFrom(d, evidence, key, inner, shards)
    requires forall i :: 0 <= i < |inner| ==> 1 <= inner[i] <= |evidence|
    ensures var problems := JoinProblems(found, shards, same);
      && InOrder(problems, origin) && |problems| >= |found| && AllComeFrom(d, evidence, key, origin, problems)
      && forall i :: 0 <= i < |found| ==> problems[i] == Audit(found[i])
  {
    var problems, f, n := JoinProblems(found, shards, same), |found|, |evidence|;
    origin := seq(|problems|, i => OriginAt(f, inner, n, i));
    forall i | 0 <= i < |problems| ensures ComesFrom(d, evidence, key, origin[i], problems[i]) {
      JoinAt(found, shards, same, i);
      assert f <= i < f + |inner| ==> ComesFrom(d, evidence, key, inner[i - f], shards[i - f]);
    }
    JoinInOrder(found, shards, inner, same, n, origin);
  }

  lemma JoinInOrder(found: seq<Problem>, shards: seq<MergeProblem>, inner: seq<nat>, same: bool, n: nat,
                    origin: seq<nat>)
    requires InOrder(shards, inner) && forall i :: 0 <= i < |inner| ==> 1 <= inner[i] <= n
    requires |origin| == |JoinProblems(found, shards, same)|
    requires forall i :: 0 <= i < |origin| ==> origin[i] == OriginAt(|found|, inner, n, i)
    ensures InOrder(JoinProblems(found, shards, same), origin)
    ensures forall i :: 0 <= i < |found| ==> JoinProblems(found, shards, same)[i] == Audit(found[i])
  {
    var problems := JoinProblems(found, shards, same);
    forall i, j | 0 <= i < j < |problems|
      ensures || origin[i] < origin[j]
              || (origin[i] == origin[j] && (origin[i] == 0 || Rank(problems[i]) < Rank(problems[j])))
    {
      JoinAt(found, shards, same, i);
      JoinAt(found, shards, same, j);
    }
  }

  /** The origin of problem `i`, if `f` problems of the partition come first, and `n` shards follow. */
  ghost function OriginAt(f: nat, inner: seq<nat>, n: nat, i: int): nat {
    if i < f then 0 else if i < f + |inner| then inner[i - f] else n + 1
  }

  lemma JoinAt(found: seq<Problem>, shards: seq<MergeProblem>, same: bool, i: nat)
    requires i < |JoinProblems(found, shards, same)|
    ensures JoinProblems(found, shards, same)[i]
         == if i < |found| then Audit(found[i])
            else if i < |found| + |shards| then shards[i - |found|] else TiersDiffer
    ensures |JoinProblems(found, shards, same)| <= |found| + |shards| + 1
  {}

  lemma ShardsInOrder(d: Document, evidence: seq<Evidence>, key: string -> Key) returns (inner: seq<nat>)
    requires |evidence| == |d.slices|
    ensures var shards := Concat(ProblemLists(d.slices, evidence, key), |evidence|);
      && InOrder(shards, inner) && AllComeFrom(d, evidence, key, inner, shards)
      && forall i :: 0 <= i < |shards| ==> 1 <= inner[i] <= |evidence|
  {
    var lists := ProblemLists(d.slices, evidence, key);
    forall k | 0 <= k < |lists| ensures Ascend(lists[k]) { ShardProblemsDiffer(d.slices[k], evidence[k], key); }
    inner := ListsInOrder(lists, |evidence|);
    var shards := Concat(lists, |evidence|);
    forall i | 0 <= i < |shards| ensures ComesFrom(d, evidence, key, inner[i], shards[i]) {
      ShardProblemsAre(d.slices[inner[i] - 1], evidence[inner[i] - 1], key, shards[i]);
    }
  }

  ghost function TotalLength(lists: seq<seq<MergeProblem>>): nat {
    if lists == [] then 0 else TotalLength(lists[..|lists| - 1]) + |lists[|lists| - 1]|
  }

  lemma {:induction false} ConcatLength(lists: seq<seq<MergeProblem>>, n: nat)
    requires n <= |lists|
    ensures |Concat(lists, n)| == TotalLength(lists[..n])
  {
    if n > 0 {
      ConcatLength(lists, n - 1);
      assert lists[..n][..n - 1] == lists[..n - 1];
    }
  }

  /** The merge reports each of these once: there are as many as the parts have together. */
  lemma MergeProblemsAreCounted(d: Document, census: seq<Record>, evidence: seq<Evidence>, key: string -> Key,
                                digest: seq<string> -> string)
    requires |evidence| == |d.slices|
    ensures |MergeOf(d, census, evidence, key, digest).problems|
         == |CheckOf(d.slices, d.censusDigest, Ids(census), digest)|
            + TotalLength(seq(|evidence|, k requires 0 <= k < |evidence| =>
                ShardProblems(d.slices[k], evidence[k], key)))
            + if multiset(AllTiers(census)) != multiset(AllTiers(Executed(evidence))) then 1 else 0
  {
    var lists := ProblemLists(d.slices, evidence, key);
    assert lists == seq(|evidence|, k requires 0 <= k < |evidence| => ShardProblems(d.slices[k], evidence[k], key));
    ConcatLength(lists, |evidence|);
    assert lists[..|evidence|] == lists;
    TierTablesAgreeIff(census, Executed(evidence));
  }

  // ---------------------------------------------------------------- Reports and totals

  /** Neither failed nor skipped. */
  ghost predicate Passes(c: Case) {
    !Fails(c) && Skip !in c.children
  }

  ghost function Passing(cases: seq<Case>): nat {
    |set i | 0 <= i < |cases| && Passes(cases[i])|
  }

  ghost function Skipping(cases: seq<Case>): nat {
    |set i | 0 <= i < |cases| && !Fails(cases[i]) && Skip in cases[i].children|
  }

  /** What is reported of a shard: nothing if it did not finish, else how many results it has of each kind. */
  lemma ReportsAre(d: Document, census: seq<Record>, evidence: seq<Evidence>, key: string -> Key,
                   digest: seq<string> -> string, k: nat)
    requires |evidence| == |d.slices| && k < |evidence|
    ensures var reports := MergeOf(d, census, evidence, key, digest).reports;
      && |reports| == |evidence|
      && if !LeftAllFiles(evidence[k]) then reports[k] == None
         else
           var cases := evidence[k].junit.value;
           reports[k] == Some(Report(|cases|, Passing(cases), Failing(cases), Skipping(cases)))
  {
    if LeftAllFiles(evidence[k]) {
      var cases := evidence[k].junit.value;
      var statuses := Statuses(cases);
      FailingIs(cases);
      CountIsSize(statuses, Passed);
      CountIsSize(statuses, Skipped);
      assert Places(statuses, Passed) == set i | 0 <= i < |cases| && Passes(cases[i]);
      assert Places(statuses, Skipped) == set i | 0 <= i < |cases| && !Fails(cases[i]) && Skip in cases[i].children;
    }
  }

  /** The results of the shards that finished, in plan order. */
  ghost function AllResults(evidence: seq<Evidence>): seq<Case> {
    if evidence == [] then []
    else
      var last := evidence[|evidence| - 1];
      AllResults(evidence[..|evidence| - 1]) + if LeftAllFiles(last) then last.junit.value else []
  }

  lemma {:induction false} MergedAreAll(evidence: seq<Evidence>, n: nat)
    requires n <= |evidence|
    ensures Concat(CaseLists(evidence), n) == AllResults(evidence[..n])
  {
    if n > 0 {
      MergedAreAll(evidence, n - 1);
      assert evidence[..n][..n - 1] == evidence[..n - 1];
    }
  }

  ghost function WithFailure(cases: seq<Case>): set<int> {
    set i | 0 <= i < |cases| && Failure in cases[i].children
  }

  ghost function WithErrorOnly(cases: seq<Case>): set<int> {
    set i | 0 <= i < |cases| && Error in cases[i].children && Failure !in cases[i].children
  }

  ghost function WithSkipOnly(cases: seq<Case>): set<int> {
    set i | 0 <= i < |cases| && Skip in cases[i].children && !Fails(cases[i])
  }

  lemma OneMoreFailure(before: seq<Case>, c: Case)
    ensures |WithFailure(before + [c])| == |WithFailure(before)| + if Failure in c.children then 1 else 0
  {
    assert WithFailure(before + [c]) == WithFailure(before) + if Failure in c.children then {|before|} else {};
  }

  lemma OneMoreError(before: seq<Case>, c: Case)
    ensures |WithErrorOnly(before + [c])|
         == |WithErrorOnly(before)| + if Error in c.children && Failure !in c.children then 1 else 0
  {
    assert WithErrorOnly(before + [c])
        == WithErrorOnly(before) + if Error in c.children && Failure !in c.children then {|before|} else {};
  }

  lemma OneMoreSkip(before: seq<Case>, c: Case)
    ensures |WithSkipOnly(before + [c])| == |WithSkipOnly(before)| + if Skip in c.children && !Fails(c) then 1 else 0
  {
    assert WithSkipOnly(before + [c])
        == WithSkipOnly(before) + if Skip in c.children && !Fails(c) then {|before|} else {};
  }

  ghost predicate Counted(t: Totals, cases: seq<Case>) {
    t.failures == |WithFailure(cases)| && t.errors == |WithErrorOnly(cases)| && t.skipped == |WithSkipOnly(cases)|
  }

  lemma CountOne(t: Totals, before: seq<Case>, c: Case)
    requires Counted(t, before)
    ensures Counted(AddCase(t, c.children), before + [c])
  {
    OneMoreFailure(before, c);
    OneMoreError(before, c);
    OneMoreSkip(before, c);
  }

  lemma {:induction false} TotalsCount(cases: seq<Case>, n: nat)
    requires n <= |cases|
    ensures TotalsOf(cases, n).tests == |cases| && Counted(TotalsOf(cases, n), cases[..n])
  {
    if n > 0 {
      TotalsCount(cases, n - 1);
      TakeOneMore(cases, n - 1);
      CountOne(TotalsOf(cases, n - 1), cases[..n - 1], cases[n - 1]);
    }
  }

  /** The totals: a failure counts before an error, and both before a skip, in every result of every shard that
      finished. */
  lemma TotalsAre(d: Document, census: seq<Record>, evidence: seq<Evidence>, key: string -> Key,
                  digest: seq<string> -> string)
    requires |evidence| == |d.slices|
    ensures var totals, cases := MergeOf(d, census, evidence, key, digest).totals, AllResults(evidence);
      && totals.tests == |cases| && totals.failures == |WithFailure(cases)|
      && totals.errors == |WithErrorOnly(cases)| && totals.skipped == |WithSkipOnly(cases)|
  {
    var cases := AllResults(evidence);
    MergedAreAll(evidence, |evidence|);
    assert evidence[..|evidence|] == evidence && cases[..|cases|] == cases;
    TotalsCount(cases, |cases|);
  }

  // ---------------------------------------------------------------- The verdict

  /** Everything that must be true of a shard for the merge to say ok. */
  ghost predicate ShardPasses(slice: Slice, e: Evidence, key: string -> Key) {
    && LeftAllFiles(e)
    && multiset(Ids(e.census.value)) == multiset(slice.ids)
    && (forall i, j :: 0 <= i < j < |e.junit.value| ==> e.junit.value[i].key != e.junit.value[j].key)
    && Keys(e.junit.value) == Planned(slice, key)
    && (forall i :: 0 <= i < |e.junit.value| ==> !Fails(e.junit.value[i]))
    && Strip(e.exitStatus.value) == "0"
    && e.progress.value.finished && e.progress.value.done == Some(|slice.ids|)
    && forall i :: 0 <= i < |e.refused| ==> !e.refused[i]
  }

  lemma FailedIff(cases: seq<Case>)
    ensures Failed in Statuses(cases) <==> exists i :: 0 <= i < |cases| && Fails(cases[i])
  {
    if Failed in Statuses(cases) { var i :| 0 <= i < |cases| && Statuses(cases)[i] == Failed; }
    if i :| 0 <= i < |cases| && Fails(cases[i]) { assert Statuses(cases)[i] == Failed; }
  }

  lemma DistinctKeys(cases: seq<Case>)
    ensures Distinct(CaseKeys(cases)) <==> forall i, j :: 0 <= i < j < |cases| ==> cases[i].key != cases[j].key
  {
    if Distinct(CaseKeys(cases)) {
      forall i, j | 0 <= i < j < |cases| ensures cases[i].key != cases[j].key {
        assert CaseKeys(cases)[i] != CaseKeys(cases)[j];
      }
    }
  }

  lemma PassesIff(slice: Slice, e: Evidence, key: string -> Key)
    ensures ShardPasses(slice, e, key) <==> ShardHolds(slice, e, key) && NothingFailed(CasesOf(e))
  {
    if LeftAllFiles(e) {
      KeysAre(slice, e.junit.value, key);
      DistinctKeys(e.junit.value);
      FailedIff(e.junit.value);
    }
  }

  /** How often a tier occurs. */
  ghost function UsesOf(records: seq<Record>, tier: string): nat {
    if records == [] then 0 else multiset(records[0].tiers)[tier] + UsesOf(records[1..], tier)
  }

  ghost function UsesRun(evidence: seq<Evidence>, tier: string): nat {
    if evidence == [] then 0
    else
      UsesRun(evidence[..|evidence| - 1], tier)
      + match evidence[|evidence| - 1].census case None => 0 case Some(records) => UsesOf(records, tier)
  }

  lemma {:induction false} UsesOfConcat(a: seq<Record>, b: seq<Record>, tier: string)
    ensures UsesOf(a + b, tier) == UsesOf(a, tier) + UsesOf(b, tier)
  {
    if a == [] {
      assert a + b == b;
    } else {
      assert (a + b)[1..] == a[1..] + b;
      UsesOfConcat(a[1..], b, tier);
    }
  }

  lemma {:induction false} UsesAreCounted(records: seq<Record>, tier: string)
    ensures multiset(AllTiers(records))[tier] == UsesOf(records, tier)
  {
    if records != [] {
      var n := |records| - 1;
      UsesAreCounted(records[..n], tier);
      UsesOfConcat(records[..n], [records[n]], tier);
      assert records == records[..n] + [records[n]] && [records[n]][1..] == [];
    }
  }

  lemma {:induction false} UsesOfExecuted(evidence: seq<Evidence>, tier: string, n: nat)
    requires n <= |evidence| && forall k :: 0 <= k < n ==> LeftAllFiles(evidence[k])
    ensures UsesOf(Concat(RecordLists(evidence), n), tier) == UsesRun(evidence[..n], tier)
  {
    if n > 0 {
      UsesOfExecuted(evidence, tier, n - 1);
      UsesOfConcat(Concat(RecordLists(evidence), n - 1), RecordLists(evidence)[n - 1], tier);
      assert evidence[..n][..n - 1] == evidence[..n - 1];
    }
  }

  lemma TierIsUsed(census: seq<Record>, evidence: seq<Evidence>, tier: string)
    requires forall k :: 0 <= k < |evidence| ==> LeftAllFiles(evidence[k])
    ensures multiset(AllTiers(census))[tier] == UsesOf(census, tier)
    ensures multiset(AllTiers(Executed(evidence)))[tier] == UsesRun(evidence, tier)
  {
    UsesAreCounted(census, tier);
    UsesAreCounted(Executed(evidence), tier);
    UsesOfExecuted(evidence, tier, |evidence|);
    assert evidence[..|evidence|] == evidence;
  }

  /** Every tier occurs as often in what the shards ran as in the census. */
  ghost predicate SameUse(census: seq<Record>, evidence: seq<Evidence>) {
    forall tier: string :: UsesOf(census, tier) == UsesRun(evidence, tier)
  }

  lemma SameTiersIff(census: seq<Record>, evidence: seq<Evidence>)
    requires forall k :: 0 <= k < |evidence| ==> LeftAllFiles(evidence[k])
    ensures multiset(AllTiers(census)) == multiset(AllTiers(Executed(evidence))) <==> SameUse(census, evidence)
  {
    var a, b := multiset(AllTiers(census)), multiset(AllTiers(Executed(evidence)));
    forall tier: string ensures a[tier] == UsesOf(census, tier) && b[tier] == UsesRun(evidence, tier) {
      TierIsUsed(census, evidence, tier);
    }
    if SameUse(census, evidence) {
      assert forall tier: string :: a[tier] == b[tier];
      assert a == b;
    } else {
      var tier: string :| UsesOf(census, tier) != UsesRun(evidence, tier);
      assert a[tier] != b[tier];
    }
  }

  ghost predicate InSomeShard(slices: seq<Slice>, n: nat, id: string)
    requires n <= |slices|
  {
    exists k :: 0 <= k < n && id in slices[k].ids
  }

  ghost predicate InCensus(census: seq<Record>, id: string) {
    exists r :: r in census && r.id == id
  }

  /** No shard is empty, none lists an id twice, no two list the same id, and together they list the census. */
  ghost predicate CutsCensus(slices: seq<Slice>, census: seq<Record>) {
    && (forall k :: 0 <= k < |slices| ==> slices[k].ids != [] && Distinct(slices[k].ids))
    && (forall j, k, id :: 0 <= j < k < |slices| && id in slices[j].ids ==> id !in slices[k].ids)
    && (forall id :: InSomeShard(slices, |slices|, id) <==> InCensus(census, id))
  }

  lemma {:induction false} InFlat(slices: seq<Slice>, n: nat, id: string)
    requires n <= |slices|
    ensures id in Flat(slices, n) <==> InSomeShard(slices, n, id)
  {
    if n > 0 { InFlat(slices, n - 1, id); }
  }

  lemma {:induction false} FlatDistinctIff(slices: seq<Slice>, n: nat)
    requires n <= |slices|
    ensures Distinct(Flat(slices, n)) <==>
      && (forall k :: 0 <= k < n ==> Distinct(slices[k].ids))
      && (forall j, k, id :: 0 <= j < k < n && id in slices[j].ids ==> id !in slices[k].ids)
  {
    if n > 0 {
      FlatDistinctIff(slices, n - 1);
      var before, ids := Flat(slices, n - 1), slices[n - 1].ids;
      forall id ensures id in before <==> InSomeShard(slices, n - 1, id) {
        InFlat(slices, n - 1, id);
      }
      DistinctConcatIff(before, ids);
    }
  }

  lemma DistinctConcatIff(a: seq<string>, b: seq<string>)
    ensures Distinct(a + b) <==> Distinct(a) && Distinct(b) && forall x :: x in a ==> x !in b
  {
    if Distinct(a + b) {
      DistinctSplit(a, b);
      forall i, j | 0 <= i < |a| && 0 <= j < |b| ensures a[i] != b[j] {
        assert (a + b)[i] != (a + b)[|a| + j];
      }
    }
    if Distinct(a) && Distinct(b) && forall x :: x in a ==> x !in b { DistinctConcat(a, b); }
  }

  lemma InIds(census: seq<Record>, id: string)
    ensures id in Ids(census) <==> InCensus(census, id)
  {
    if id in Ids(census) {
      var i :| 0 <= i < |census| && Ids(census)[i] == id;
      assert census[i] in census;
    }
    if r :| r in census && r.id == id {
      var i :| 0 <= i < |census| && census[i] == r;
      assert Ids(census)[i] == id;
    }
  }

  lemma CutsIff(slices: seq<Slice>, census: seq<Record>)
    ensures ExactPartition(slices, Ids(census)) <==> CutsCensus(slices, census)
  {
    FlatDistinctIff(slices, |slices|);
    forall id
      ensures id in Flat(slices, |slices|) <==> InSomeShard(slices, |slices|, id)
      ensures id in Ids(census) <==> InCensus(census, id)
    {
      InFlat(slices, |slices|, id);
      InIds(census, id);
    }
  }

  /**
   * The merge says ok exactly when the shards cut this very census, every shard left all its files and passes, and
   * every tier was used in what ran as often as in the census.
   */
  lemma OkMeans(d: Document, census: seq<Record>, evidence: seq<Evidence>, key: string -> Key,
                digest: seq<string> -> string)
    requires |evidence| == |d.slices|
    ensures MergeOf(d, census, evidence, key, digest).ok <==>
      && CutsCensus(d.slices, census)
      && d.censusDigest == digest(SortStrings(Ids(census)))
      && (forall k :: 0 <= k < |evidence| ==> ShardPasses(d.slices[k], evidence[k], key))
      && SameUse(census, evidence)
  {
    MergeOkIff(d, census, evidence, key, digest);
    CutsIff(d.slices, census);
    EveryShardPassesIff(d.slices, evidence, key);
    if EveryShardHolds(d.slices, evidence, key) { SameTiersIff(census, evidence); }
  }

  lemma EveryShardPassesIff(slices: seq<Slice>, evidence: seq<Evidence>, key: string -> Key)
    requires |evidence| == |slices|
    ensures (forall k :: 0 <= k < |evidence| ==> ShardPasses(slices[k], evidence[k], key)) <==>
            EveryShardHolds(slices, evidence, key) && NothingFailed(MergedCases(evidence))
  {
    forall k | 0 <= k < |evidence|
      ensures ShardPasses(slices[k], evidence[k], key)
         <==> ShardHolds(slices[k], evidence[k], key) && NothingFailed(CaseLists(evidence)[k])
    {
      PassesIff(slices[k], evidence[k], key);
    }
    NothingFailedInAny(CaseLists(evidence), |evidence|);
  }

  lemma {:induction false} NothingFailedInAny(lists: seq<seq<Case>>, n: nat)
    requires n <= |lists|
    ensures NothingFailed(Concat(lists, n)) <==> forall k :: 0 <= k < n ==> NothingFailed(lists[k])
  {
    if n > 0 {
      NothingFailedInAny(lists, n - 1);
      var before, last := Concat(lists, n - 1), lists[n - 1];
      assert forall i :: 0 <= i < |before| ==> (before + last)[i] == before[i];
      assert forall i :: 0 <= i < |last| ==> (before + last)[|before| + i] == last[i];
    }
  }
}
