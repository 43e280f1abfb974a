/** From the plan to the verdict: when a run that does what its plan says passes the merge. */
module PlannedRun {
  import opened Wrappers
  import opened Order
  import opened Text
  import opened ShardPlan
  import opened Partition
  import opened Merge
  import opened MergeTheorems
  import opened PlanGuarantees
  import PlanTheorems

  /** What running a test leaves in its result. */
  type Outcome = string -> seq<Tag>

  // ---------------------------------------------------------------- What a faithful shard leaves

  ghost function RecordFor(records: seq<Record>, id: string): (r: Record)
    requires id in Ids(records)
    ensures r in records && r.id == id
  {
    var i: nat :| i < |records| && Ids(records)[i] == id;
    records[i]
  }

  ghost predicate Listed(ids: seq<string>, records: seq<Record>) {
    forall i :: 0 <= i < |ids| ==> ids[i] in Ids(records)
  }

  /** The records of some census ids. */
  ghost function Selected(records: seq<Record>, ids: seq<string>): (r: seq<Record>)
    requires Listed(ids, records)
    ensures |r| == |ids| && forall i :: 0 <= i < |r| ==> r[i] == RecordFor(records, ids[i])
  {
    seq(|ids|, i requires 0 <= i < |ids| => RecordFor(records, ids[i]))
  }

  function Results(ids: seq<string>, key: string -> Key, outcome: Outcome): (r: seq<Case>)
    ensures |r| == |ids| && forall i :: 0 <= i < |r| ==> r[i] == Case(key(ids[i]), outcome(ids[i]))
  {
    seq(|ids|, i requires 0 <= i < |ids| => Case(key(ids[i]), outcome(ids[i])))
  }

  /** A shard that collects its ids, runs each of them once, finishes, and exits with 0 if and only if none failed. */
  ghost function Faithful(slice: Slice, records: seq<Record>, key: string -> Key, outcome: Outcome): Evidence
    requires Listed(slice.ids, records)
  {
    var results := Results(slice.ids, key, outcome);
    Evidence(Some(results), Some(Selected(records, slice.ids)), Some(Progress(true, Some(|slice.ids|))), true,
             Some(if Failed in Statuses(results) then "1" else "0"), [])
  }

  ghost predicate AllListed(slices: seq<Slice>, records: seq<Record>) {
    forall k :: 0 <= k < |slices| ==> Listed(slices[k].ids, records)
  }

  ghost function FaithfulRun(slices: seq<Slice>, records: seq<Record>, key: string -> Key, outcome: Outcome)
      : (e: seq<Evidence>)
    requires AllListed(slices, records)
    ensures |e| == |slices|
    ensures forall k :: 0 <= k < |e| ==> e[k] == Faithful(slices[k], records, key, outcome)
  {
    seq(|slices|, k requires 0 <= k < |slices| => Faithful(slices[k], records, key, outcome))
  }

  /** A faithful shard has no problem exactly when the key tells its nodes apart. */
  lemma FaithfulShardHoldsIff(slice: Slice, records: seq<Record>, key: string -> Key, outcome: Outcome)
    requires Listed(slice.ids, records) && Distinct(slice.ids)
    ensures ShardHolds(slice, Faithful(slice, records, key, outcome), key) <==> InjectiveOn(key, slice.ids)
  {
    var e, results := Faithful(slice, records, key, outcome), Results(slice.ids, key, outcome);
    assert Ids(e.census.value) == slice.ids;
    assert CaseKeys(results) == Each(slice.ids, key);
    DistinctKeysIff(slice.ids, key);
    forall k ensures k in KeySet(results) <==> k in Wanted(slice.ids, key) {
      WantedKeys(slice.ids, key, k);
    }
  }

  // ---------------------------------------------------------------- Tiers and failures of the whole run

  lemma {:induction false} AllTiersConcat(a: seq<Record>, b: seq<Record>)
    ensures AllTiers(a + b) == AllTiers(a) + AllTiers(b)
  {
    if b == [] {
      assert a + b == a;
    } else {
      var n := |b| - 1;
      assert (a + b)[..|a + b| - 1] == a + b[..n] && (a + b)[|a + b| - 1] == b[n];
      AllTiersConcat(a, b[..n]);
    }
  }

  lemma TiersInsert(front: seq<Record>, r: Record, back: seq<Record>)
    ensures multiset(AllTiers(front + [r] + back)) == multiset(r.tiers) + multiset(AllTiers(front + back))
  {
    AllTiersConcat(front + [r], back);
    AllTiersConcat(front, [r]);
    AllTiersConcat(front, back);
    assert [r][..0] == [] && AllTiers([r]) == r.tiers;
  }

  lemma {:induction false} TiersPermute(a: seq<Record>, b: seq<Record>)
    requires multiset(a) == multiset(b)
    ensures multiset(AllTiers(a)) == multiset(AllTiers(b))
  {
    if a == [] {
      assert |b| == |multiset(b)| == 0;
    } else {
      var front, back := FirstIn(a, b);
      TiersPermute(a[1..], front + back);
      TiersInsert(front, a[0], back);
      TiersInsert([], a[0], a[1..]);
    }
  }

  lemma SelectedConcat(records: seq<Record>, a: seq<string>, b: seq<string>)
    requires Listed(a, records) && Listed(b, records)
    ensures Listed(a + b, records) && Selected(records, a + b) == Selected(records, a) + Selected(records, b)
  {}

  lemma ResultsConcat(a: seq<string>, b: seq<string>, key: string -> Key, outcome: Outcome)
    ensures Results(a + b, key, outcome) == Results(a, key, outcome) + Results(b, key, outcome)
  {}

  /** Together the faithful shards collect what is listed in them, in order. */
  lemma {:induction false} CollectedAddsUp(slices: seq<Slice>, records: seq<Record>, lists: seq<seq<Record>>,
                                           n: nat)
    requires n <= |slices| == |lists| && AllListed(slices, records)
    requires forall k :: 0 <= k < |slices| ==> lists[k] == Selected(records, slices[k].ids)
    ensures Listed(Flat(slices, n), records) && Concat(lists, n) == Selected(records, Flat(slices, n))
  {
    if n > 0 {
      CollectedAddsUp(slices, records, lists, n - 1);
      SelectedConcat(records, Flat(slices, n - 1), slices[n - 1].ids);
    }
  }

  /** And run what is listed in them. */
  lemma {:induction false} ResultsAddUp(slices: seq<Slice>, lists: seq<seq<Case>>, key: string -> Key, outcome: Outcome,
                                        n: nat)
    requires n <= |slices| == |lists|
    requires forall k :: 0 <= k < |slices| ==> lists[k] == Results(slices[k].ids, key, outcome)
    ensures Concat(lists, n) == Results(Flat(slices, n), key, outcome)
  {
    if n > 0 {
      ResultsAddUp(slices, lists, key, outcome, n - 1);
      ResultsConcat(Flat(slices, n - 1), slices[n - 1].ids, key, outcome);
    }
  }

  /** Ids that list the census once select its records. */
  lemma SelectedIsCensus(records: seq<Record>, ids: seq<string>)
    requires Distinct(Ids(records)) && Distinct(ids) && Listed(ids, records)
    requires forall id :: id in ids <==> id in Ids(records)
    ensures multiset(Selected(records, ids)) == multiset(records)
  {
    var selected := Selected(records, ids);
    forall i, j | 0 <= i < j < |records| ensures records[i] != records[j] {
      assert Ids(records)[i] != Ids(records)[j];
    }
    forall r ensures r in selected <==> r in records {
      if r in records {
        var i :| 0 <= i < |records| && records[i] == r;
        assert Ids(records)[i] == r.id && r.id in ids;
        var j :| 0 <= j < |ids| && ids[j] == r.id;
        assert selected[j] == r;
      }
    }
    DistinctSameElements(selected, records);
  }

  lemma NothingFailedIffNoneDoes(ids: seq<string>, key: string -> Key, outcome: Outcome)
    ensures NothingFailed(Results(ids, key, outcome))
       <==> forall i :: 0 <= i < |ids| ==> StatusOf(outcome(ids[i])) != Failed
  {}

  // ---------------------------------------------------------------- The verdict on a planned run

  /** No shard of the plan is empty, and the key tells the nodes of each shard apart. */
  ghost predicate Auditable(p: Plan, key: string -> Key) {
    forall k :: 0 <= k < |p.shards| ==> p.shards[k].ids != [] && InjectiveOn(key, p.shards[k].ids)
  }

  ghost predicate NoTestFails(records: seq<Record>, outcome: Outcome) {
    forall id :: id in Ids(records) ==> StatusOf(outcome(id)) != Failed
  }

  /** The plan as the merge reads it back. */
  function DocumentOf(p: Plan): Document {
    Document(Slices(p), p.censusDigest)
  }

  lemma PlannedIdsAreListed(records: seq<Record>, inputs: Inputs, p: Plan)
    requires PlanOf(records, inputs) == Ok(p)
    ensures AllListed(Slices(p), records) && forall k :: 0 <= k < |p.shards| ==> Distinct(p.shards[k].ids)
  {
    forall k | 0 <= k < |p.shards| ensures Listed(Slices(p)[k].ids, records) && Distinct(p.shards[k].ids) {
      PlanTheorems.ShardContents(records, inputs, p, k);
    }
  }

  ghost function PlannedRunOf(records: seq<Record>, inputs: Inputs, p: Plan, key: string -> Key, outcome: Outcome)
      : (e: seq<Evidence>)
    requires PlanOf(records, inputs) == Ok(p)
    ensures |e| == |Slices(p)|
  {
    PlannedIdsAreListed(records, inputs, p);
    FaithfulRun(Slices(p), records, key, outcome)
  }

  lemma EveryPlannedShardHoldsIff(records: seq<Record>, inputs: Inputs, p: Plan, key: string -> Key, outcome: Outcome)
    requires PlanOf(records, inputs) == Ok(p)
    ensures EveryShardHolds(Slices(p), PlannedRunOf(records, inputs, p, key, outcome), key)
       <==> forall k :: 0 <= k < |p.shards| ==> InjectiveOn(key, p.shards[k].ids)
  {
    var e := PlannedRunOf(records, inputs, p, key, outcome);
    PlannedIdsAreListed(records, inputs, p);
    forall k | 0 <= k < |p.shards|
      ensures ShardHolds(Slices(p)[k], e[k], key) <==> InjectiveOn(key, p.shards[k].ids)
    {
      FaithfulShardHoldsIff(Slices(p)[k], records, key, outcome);
    }
  }

  lemma PlannedTiersAgree(records: seq<Record>, inputs: Inputs, p: Plan, key: string -> Key, outcome: Outcome)
    requires PlanOf(records, inputs) == Ok(p)
    ensures multiset(AllTiers(records)) == multiset(AllTiers(Executed(PlannedRunOf(records, inputs, p, key, outcome))))
  {
    var n, e := |p.shards|, PlannedRunOf(records, inputs, p, key, outcome);
    PlannedIdsAreListed(records, inputs, p);
    CollectedAddsUp(Slices(p), records, RecordLists(e), n);
    PlanCoversCensus(records, inputs, p);
    ShardCount(records, inputs, p);
    SelectedIsCensus(records, Flat(Slices(p), n));
    TiersPermute(records, Selected(records, Flat(Slices(p), n)));
  }

  lemma PlannedRunFailsNothingIff(records: seq<Record>, inputs: Inputs, p: Plan, key: string -> Key, outcome: Outcome)
    requires PlanOf(records, inputs) == Ok(p)
    ensures NothingFailed(MergedCases(PlannedRunOf(records, inputs, p, key, outcome)))
       <==> NoTestFails(records, outcome)
  {
    var e, flat := PlannedRunOf(records, inputs, p, key, outcome), Flat(Slices(p), |p.shards|);
    ResultsAddUp(Slices(p), CaseLists(e), key, outcome, |p.shards|);
    NothingFailedIffNoneDoes(flat, key, outcome);
    PlanCoversCensus(records, inputs, p);
    assert forall i :: 0 <= i < |flat| ==> flat[i] in flat;
    forall id | id in flat ensures exists i :: 0 <= i < |flat| && flat[i] == id {}
  }

  lemma PlannedPartitionIff(records: seq<Record>, inputs: Inputs, p: Plan)
    requires PlanOf(records, inputs) == Ok(p)
    ensures ExactPartition(Slices(p), Ids(records)) <==> forall k :: 0 <= k < |p.shards| ==> p.shards[k].ids != []
    ensures p.censusDigest == inputs.digest(SortStrings(Ids(records)))
  {
    PlanCoversCensus(records, inputs, p);
  }

  lemma PlannedAuditHoldsIff(records: seq<Record>, inputs: Inputs, p: Plan, key: string -> Key, outcome: Outcome)
    requires PlanOf(records, inputs) == Ok(p)
    ensures AuditHolds(DocumentOf(p), records, PlannedRunOf(records, inputs, p, key, outcome), key, inputs.digest)
       <==> Auditable(p, key) && NoTestFails(records, outcome)
  {
    PlannedPartitionIff(records, inputs, p);
    EveryPlannedShardHoldsIff(records, inputs, p, key, outcome);
    PlannedTiersAgree(records, inputs, p, key, outcome);
    PlannedRunFailsNothingIff(records, inputs, p, key, outcome);
  }

  /**
   * A run that does what its plan says passes the merge exactly when no shard is empty, the result key tells the nodes
   * of every shard apart, and no test of the census fails.
   */
  lemma PlannedRunPassesIff(records: seq<Record>, inputs: Inputs, p: Plan, key: string -> Key, outcome: Outcome)
    requires PlanOf(records, inputs) == Ok(p)
    ensures MergeOf(DocumentOf(p), records, PlannedRunOf(records, inputs, p, key, outcome), key, inputs.digest).ok
       <==> Auditable(p, key) && NoTestFails(records, outcome)
  {
    MergeOkIff(DocumentOf(p), records, PlannedRunOf(records, inputs, p, key, outcome), key, inputs.digest);
    PlannedAuditHoldsIff(records, inputs, p, key, outcome);
  }
}
