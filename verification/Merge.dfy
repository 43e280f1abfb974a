/** The merge: the shards' own artifacts audited against the plan, and one verdict derived from them. */
module Merge {
  import opened Wrappers
  import opened Order
  import opened Text
  import opened ShardPlan
  import opened Partition

  type Key = (string, string)

  datatype Tag = Failure | Error | Skip | Other
  datatype Case = Case(key: Key, children: seq<Tag>)
  datatype Status = Passed | Failed | Skipped
  datatype Progress = Progress(finished: bool, done: Option<int>)

  /** What one shard left in its directory; `refused` are the docker calls its guard logged, true if refused. */
  datatype Evidence = Evidence(
    junit: Option<seq<Case>>, census: Option<seq<Record>>, progress: Option<Progress>, hasSkips: bool,
    exitStatus: Option<string>, refused: seq<bool>)

  datatype MergeProblem =
    | Audit(problem: Problem)
    | DidNotFinish(shard: string)
    | CollectedDiffers(shard: string)
    | ManyResults(shard: string, extra: nat)
    | ResultsDiffer(shard: string, missing: nat, unplanned: nat)
    | ExitContradicts(shard: string, failing: nat)
    | ProgressDiffers(shard: string)
    | DockerRefused(shard: string, calls: nat)
    | TiersDiffer

  datatype Report = Report(results: nat, passed: nat, failed: nat, skipped: nat)
  datatype Totals = Totals(tests: nat, failures: nat, errors: nat, skipped: nat)
  datatype MergeAudit = MergeAudit(ok: bool, problems: seq<MergeProblem>, reports: seq<Option<Report>>, totals: Totals)

  /** The plan on disk, with the ids of each shard read back. */
  datatype Document = Document(slices: seq<Slice>, censusDigest: string)

  // ---------------------------------------------------------------- Single results

  function StatusOf(children: seq<Tag>): Status {
    if Failure in children || Error in children then Failed
    else if Skip in children then Skipped
    else Passed
  }

  method CaseStatus(children: seq<Tag>) returns (status: Status)
    ensures status == StatusOf(children)
  {
    status := Passed;
    for i := 0 to |children|
      invariant Failure !in children[..i] && Error !in children[..i]
      invariant status == if Skip in children[..i] then Skipped else Passed
    {
      assert children[..i + 1] == children[..i] + [children[i]];
      if children[i] == Failure || children[i] == Error {
        return Failed;
      }
      if children[i] == Skip {
        status := Skipped;
      }
    }
    assert children[..|children|] == children;
  }

  function Statuses(cases: seq<Case>): (r: seq<Status>)
    ensures |r| == |cases| && forall i :: 0 <= i < |r| ==> r[i] == StatusOf(cases[i].children)
  {
    seq(|cases|, i requires 0 <= i < |cases| => StatusOf(cases[i].children))
  }

  function CaseKeys(cases: seq<Case>): (r: seq<Key>)
    ensures |r| == |cases| && forall i :: 0 <= i < |r| ==> r[i] == cases[i].key
  {
    seq(|cases|, i requires 0 <= i < |cases| => cases[i].key)
  }

  function CountOf<T(==)>(s: seq<T>, x: T): nat {
    multiset(s)[x]
  }

  // ---------------------------------------------------------------- Tiers

  function AddTiers(counts: map<string, nat>, tiers: seq<string>, n: nat): map<string, nat>
    requires n <= |tiers|
  {
    if n == 0 then counts
    else
      var before := AddTiers(counts, tiers, n - 1);
      var tier := tiers[n - 1];
      before[tier := (if tier in before then before[tier] else 0) + 1]
  }

  function TierCounts(records: seq<Record>, n: nat): map<string, nat>
    requires n <= |records|
  {
    if n == 0 then map[]
    else AddTiers(TierCounts(records, n - 1), records[n - 1].tiers, |records[n - 1].tiers|)
  }

  method CountTiers(records: seq<Record>) returns (counts: map<string, nat>)
    ensures counts == TierCounts(records, |records|)
  {
    counts := map[];
    for n := 0 to |records|
      invariant counts == TierCounts(records, n)
    {
      var tiers := records[n].tiers;
      for k := 0 to |tiers|
        invariant counts == AddTiers(TierCounts(records, n), tiers, k)
      {
        counts := counts[tiers[k] := (if tiers[k] in counts then counts[tiers[k]] else 0) + 1];
      }
    }
  }

  function AllTiers(records: seq<Record>): seq<string> {
    if records == [] then [] else AllTiers(records[..|records| - 1]) + records[|records| - 1].tiers
  }

  /** A tier table says how often each tier occurs. */
  ghost predicate Counts(counts: map<string, nat>, s: seq<string>) {
    forall t :: (t in counts <==> t in s) && (t in counts ==> counts[t] == multiset(s)[t])
  }

  lemma {:induction false} AddTiersCounts(counts: map<string, nat>, s: seq<string>, tiers: seq<string>, n: nat)
    requires n <= |tiers| && Counts(counts, s)
    ensures Counts(AddTiers(counts, tiers, n), s + tiers[..n])
  {
    if n == 0 {
      assert s + tiers[..0] == s;
    } else {
      AddTiersCounts(counts, s, tiers, n - 1);
      assert s + tiers[..n] == s + tiers[..n - 1] + [tiers[n - 1]];
    }
  }

  lemma {:induction false} TierCountsMeaning(records: seq<Record>, n: nat)
    requires n <= |records|
    ensures Counts(TierCounts(records, n), AllTiers(records[..n]))
  {
    if n > 0 {
      TierCountsMeaning(records, n - 1);
      var tiers := records[n - 1].tiers;
      AddTiersCounts(TierCounts(records, n - 1), AllTiers(records[..n - 1]), tiers, |tiers|);
      assert tiers[..|tiers|] == tiers && records[..n][..n - 1] == records[..n - 1];
    }
  }

  lemma CountsAgreeIff(a: map<string, nat>, s: seq<string>, b: map<string, nat>, t: seq<string>)
    requires Counts(a, s) && Counts(b, t)
    ensures a == b <==> multiset(s) == multiset(t)
  {
    assert forall x :: (x in s <==> x in multiset(s)) && (x in t <==> x in multiset(t));
    if a == b {
      forall x ensures multiset(s)[x] == multiset(t)[x] {
        if x !in a {
          assert x !in s && x !in t;
        }
      }
    }
  }

  /** Two tier tables agree exactly when every tier occurs equally often. */
  lemma TierTablesAgreeIff(a: seq<Record>, b: seq<Record>)
    ensures TierCounts(a, |a|) == TierCounts(b, |b|) <==> multiset(AllTiers(a)) == multiset(AllTiers(b))
  {
    TierCountsMeaning(a, |a|);
    TierCountsMeaning(b, |b|);
    assert a[..|a|] == a && b[..|b|] == b;
    CountsAgreeIff(TierCounts(a, |a|), AllTiers(a), TierCounts(b, |b|), AllTiers(b));
  }

  // ---------------------------------------------------------------- One shard

  predicate Complete(e: Evidence) {
    e.junit.Some? && e.census.Some? && e.progress.Some? && e.hasSkips && e.exitStatus.Some?
  }

  function Wanted(ids: seq<string>, key: string -> Key): set<Key> {
    set id | id in ids :: key(id)
  }

  function KeySet(cases: seq<Case>): set<Key> {
    set k | k in CaseKeys(cases)
  }

  /** The collected ids and the results against the plan. */
  function ResultProblems(shard: string, collected: bool, results: nat, keys: set<Key>, wanted: set<Key>)
      : seq<MergeProblem>
    requires |keys| <= results
  {
    (if !collected then [CollectedDiffers(shard)] else [])
    + (if results != |keys| then [ManyResults(shard, results - |keys|)] else [])
    + (if keys != wanted then [ResultsDiffer(shard, |wanted - keys|, |keys - wanted|)] else [])
  }

  lemma KeysAtMostCases(cases: seq<Case>)
    ensures |KeySet(cases)| <= |cases|
    ensures |KeySet(cases)| == |cases| <==> Distinct(CaseKeys(cases))
  {
    DistinctIffNoCollapse(CaseKeys(cases));
  }

  /** The exit status, the progress file and the docker guard against the results. */
  function RunProblems(slice: Slice, statuses: seq<Status>, exitStatus: string, progress: Progress, refused: seq<bool>)
      : seq<MergeProblem>
  {
    var failing, calls := CountOf(statuses, Failed), CountOf(refused, true);
    (if (Strip(exitStatus) == "0") != (failing == 0) then [ExitContradicts(slice.id, failing)] else [])
    + (if !progress.finished || progress.done != Some(|slice.ids|) then [ProgressDiffers(slice.id)] else [])
    + (if calls > 0 then [DockerRefused(slice.id, calls)] else [])
  }

  function ShardProblems(slice: Slice, e: Evidence, key: string -> Key): seq<MergeProblem> {
    if !Complete(e) then [DidNotFinish(slice.id)]
    else
      var cases := e.junit.value;
      KeysAtMostCases(cases);
      ResultProblems(slice.id, SortStrings(Ids(e.census.value)) == SortStrings(slice.ids), |cases|,
                     KeySet(cases), Wanted(slice.ids, key))
      + RunProblems(slice, Statuses(cases), e.exitStatus.value, e.progress.value, e.refused)
  }

  function Tally(s: seq<Status>): Report {
    Report(|s|, CountOf(s, Passed), CountOf(s, Failed), CountOf(s, Skipped))
  }

  function ReportOf(e: Evidence): Option<Report> {
    if !Complete(e) then None
    else Some(Tally(Statuses(e.junit.value)))
  }

  // ---------------------------------------------------------------- All shards

  function CasesOf(e: Evidence): seq<Case> {
    if Complete(e) then e.junit.value else []
  }

  function RecordsOf(e: Evidence): seq<Record> {
    if Complete(e) then e.census.value else []
  }

  /** The first `n` lists, one after the other. */
  function Concat<T>(lists: seq<seq<T>>, n: nat): seq<T>
    requires n <= |lists|
  {
    if n == 0 then [] else Concat(lists, n - 1) + lists[n - 1]
  }

  function ProblemLists(slices: seq<Slice>, evidence: seq<Evidence>, key: string -> Key): (r: seq<seq<MergeProblem>>)
    requires |slices| == |evidence|
    ensures |r| == |slices| && forall k :: 0 <= k < |r| ==> r[k] == ShardProblems(slices[k], evidence[k], key)
  {
    seq(|slices|, k requires 0 <= k < |slices| => ShardProblems(slices[k], evidence[k], key))
  }

  function Reports(evidence: seq<Evidence>): (r: seq<Option<Report>>)
    ensures |r| == |evidence| && forall k :: 0 <= k < |r| ==> r[k] == ReportOf(evidence[k])
  {
    seq(|evidence|, k requires 0 <= k < |evidence| => ReportOf(evidence[k]))
  }

  function CaseLists(evidence: seq<Evidence>): (r: seq<seq<Case>>)
    ensures |r| == |evidence| && forall k :: 0 <= k < |r| ==> r[k] == CasesOf(evidence[k])
  {
    seq(|evidence|, k requires 0 <= k < |evidence| => CasesOf(evidence[k]))
  }

  function RecordLists(evidence: seq<Evidence>): (r: seq<seq<Record>>)
    ensures |r| == |evidence| && forall k :: 0 <= k < |r| ==> r[k] == RecordsOf(evidence[k])
  {
    seq(|evidence|, k requires 0 <= k < |evidence| => RecordsOf(evidence[k]))
  }

  function MergedCases(evidence: seq<Evidence>): seq<Case> {
    Concat(CaseLists(evidence), |evidence|)
  }

  function Executed(evidence: seq<Evidence>): seq<Record> {
    Concat(RecordLists(evidence), |evidence|)
  }

  function AddCase(t: Totals, children: seq<Tag>): Totals {
    if Failure in children then t.(failures := t.failures + 1)
    else if Error in children then t.(errors := t.errors + 1)
    else if Skip in children then t.(skipped := t.skipped + 1)
    else t
  }

  function TotalsOf(cases: seq<Case>, n: nat): Totals
    requires n <= |cases|
  {
    if n == 0 then Totals(|cases|, 0, 0, 0) else AddCase(TotalsOf(cases, n - 1), cases[n - 1].children)
  }

  function Wrapped(problems: seq<Problem>): (r: seq<MergeProblem>)
    ensures |r| == |problems|
  {
    seq(|problems|, i requires 0 <= i < |problems| => Audit(problems[i]))
  }

  function JoinProblems(partition: seq<Problem>, shards: seq<MergeProblem>, sameTiers: bool): seq<MergeProblem> {
    Wrapped(partition) + shards + (if sameTiers then [] else [TiersDiffer])
  }

  function Conclude(problems: seq<MergeProblem>, reports: seq<Option<Report>>, totals: Totals): MergeAudit {
    MergeAudit(problems == [] && totals.failures == 0 && totals.errors == 0, problems, reports, totals)
  }

  function MergeOf(d: Document, census: seq<Record>, evidence: seq<Evidence>, key: string -> Key,
                   digest: seq<string> -> string): MergeAudit
    requires |evidence| == |d.slices|
  {
    var executed, cases := Executed(evidence), MergedCases(evidence);
    Conclude(JoinProblems(CheckOf(d.slices, d.censusDigest, Ids(census), digest),
                          Concat(ProblemLists(d.slices, evidence, key), |evidence|),
                          TierCounts(census, |census|) == TierCounts(executed, |executed|)),
             Reports(evidence), TotalsOf(cases, |cases|))
  }

  method AuditResults(shard: string, collected: bool, results: nat, keys: set<Key>, wanted: set<Key>)
      returns (problems: seq<MergeProblem>)
    requires |keys| <= results
    ensures problems == ResultProblems(shard, collected, results, keys, wanted)
  {
    problems := [];
    if !collected {
      problems := problems + [CollectedDiffers(shard)];
    }
    if results != |keys| {
      problems := problems + [ManyResults(shard, results - |keys|)];
    }
    if keys != wanted {
      problems := problems + [ResultsDiffer(shard, |wanted - keys|, |keys - wanted|)];
    }
  }

  method AuditRun(slice: Slice, statuses: seq<Status>, exitStatus: string, progress: Progress, refused: seq<bool>)
      returns (problems: seq<MergeProblem>)
    ensures problems == RunProblems(slice, statuses, exitStatus, progress, refused)
  {
    problems := [];
    var failing := CountOf(statuses, Failed);
    if (Strip(exitStatus) == "0") != (failing == 0) {
      problems := problems + [ExitContradicts(slice.id, failing)];
    }
    if !progress.finished || progress.done != Some(|slice.ids|) {
      problems := problems + [ProgressDiffers(slice.id)];
    }
    var calls := CountOf(refused, true);
    if calls > 0 {
      problems := problems + [DockerRefused(slice.id, calls)];
    }
  }

  method AuditShard(slice: Slice, e: Evidence, key: string -> Key)
      returns (problems: seq<MergeProblem>, cases: seq<Case>, records: seq<Record>)
    ensures problems == ShardProblems(slice, e, key)
    ensures cases == CasesOf(e) && records == RecordsOf(e)
  {
    if !Complete(e) {
      return [DidNotFinish(slice.id)], [], [];
    }
    cases, records := e.junit.value, e.census.value;
    KeysAtMostCases(cases);
    var results := AuditResults(slice.id, SortStrings(Ids(records)) == SortStrings(slice.ids), |cases|,
                                KeySet(cases), Wanted(slice.ids, key));
    var statuses := CaseStatuses(cases);
    var run := AuditRun(slice, statuses, e.exitStatus.value, e.progress.value, e.refused);
    problems := results + run;
  }

  method CaseStatuses(cases: seq<Case>) returns (statuses: seq<Status>)
    ensures statuses == Statuses(cases)
  {
    statuses := [];
    for i := 0 to |cases|
      invariant statuses == Statuses(cases)[..i]
    {
      var status := CaseStatus(cases[i].children);
      statuses := statuses + [status];
    }
  }

  method CountTotals(cases: seq<Case>) returns (totals: Totals)
    ensures totals == TotalsOf(cases, |cases|)
  {
    var failures, errors, skipped := 0, 0, 0;
    for n := 0 to |cases|
      invariant Totals(|cases|, failures, errors, skipped) == TotalsOf(cases, n)
    {
      var children := cases[n].children;
      if Failure in children {
        failures := failures + 1;
      } else if Error in children {
        errors := errors + 1;
      } else if Skip in children {
        skipped := skipped + 1;
      }
    }
    totals := Totals(|cases|, failures, errors, skipped);
  }

  method AuditShards(slices: seq<Slice>, evidence: seq<Evidence>, key: string -> Key)
      returns (problems: seq<MergeProblem>, cases: seq<Case>, executed: seq<Record>)
    requires |evidence| == |slices|
    ensures problems == Concat(ProblemLists(slices, evidence, key), |slices|)
    ensures cases == MergedCases(evidence) && executed == Executed(evidence)
  {
    problems, cases, executed := [], [], [];
    ghost var problemLists := ProblemLists(slices, evidence, key);
    ghost var caseLists, recordLists := CaseLists(evidence), RecordLists(evidence);
    for n := 0 to |slices|
      invariant problems == Concat(problemLists, n)
      invariant cases == Concat(caseLists, n) && executed == Concat(recordLists, n)
    {
      var found, own, records := AuditShard(slices[n], evidence[n], key);
      problems := problems + found;
      cases := cases + own;
      executed := executed + records;
    }
  }

  method ReportShards(evidence: seq<Evidence>) returns (reports: seq<Option<Report>>)
    ensures reports == Reports(evidence)
  {
    reports := [];
    for n := 0 to |evidence|
      invariant reports == Reports(evidence)[..n]
    {
      if Complete(evidence[n]) {
        var statuses := CaseStatuses(evidence[n].junit.value);
        reports := reports + [Some(Tally(statuses))];
      } else {
        reports := reports + [None];
      }
    }
  }

  method MergeShards(d: Document, census: seq<Record>, evidence: seq<Evidence>, key: string -> Key,
                     digest: seq<string> -> string) returns (audit: MergeAudit)
    requires |evidence| == |d.slices|
    ensures audit == MergeOf(d, census, evidence, key, digest)
  {
    var partition := CheckPartition(d.slices, d.censusDigest, Ids(census), digest);
    var found, cases, executed := AuditShards(d.slices, evidence, key);
    var reports := ReportShards(evidence);
    var censusTiers := CountTiers(census);
    var ranTiers := CountTiers(executed);
    var problems := JoinProblems(partition, found, censusTiers == ranTiers);
    var totals := CountTotals(cases);
    return Conclude(problems, reports, totals);
  }
}
