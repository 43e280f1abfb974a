/** What a plan guarantees: an exact partition, isolation of exclusive nodes, whole files, independence of the
    order of the census, which shards are empty, and balance. */
module PlanTheorems {
  import opened Wrappers
  import opened Order
  import opened ShardPlan
  import Packing

  // ---------------------------------------------------------------- Grouping

  /** `g` lists the exclusive ids and, file by file, the ordinary ids, each once. */
  ghost predicate GroupsExactly(g: Groups, ordinary: set<string>, isolated: set<string>) {
    && Distinct(g.exclusiveIds)
    && (forall id :: id in g.exclusiveIds <==> id in isolated)
    && (forall f :: f in g.byFile ==> Distinct(g.byFile[f]) && g.byFile[f] != [])
    && (forall f, id :: f in g.byFile ==> (id in g.byFile[f] <==> id in ordinary && FileOf(id) == f))
    && (forall id :: id in ordinary ==> FileOf(id) in g.byFile)
  }

  lemma PlaceKeepsGroupsExact(g: Groups, r: Record, exclusive: map<string, string>,
                              ordinary: set<string>, isolated: set<string>)
    requires GroupsExactly(g, ordinary, isolated) && r.id !in ordinary && r.id !in isolated
    ensures IsExclusive(r, exclusive) ==> GroupsExactly(Place(g, r, exclusive), ordinary, isolated + {r.id})
    ensures !IsExclusive(r, exclusive) ==> GroupsExactly(Place(g, r, exclusive), ordinary + {r.id}, isolated)
  {
    var path := FileOf(r.id);
    var g' := Place(g, r, exclusive);
    if !IsExclusive(r, exclusive) {
      forall f | f in g'.byFile
        ensures Distinct(g'.byFile[f]) && g'.byFile[f] != []
        ensures forall id :: id in g'.byFile[f] <==> id in ordinary + {r.id} && FileOf(id) == f
      {
        if f == path && f in g.byFile {
          assert r.id !in g.byFile[f];
        }
      }
    }
  }

  lemma IdSetsStep(records: seq<Record>, exclusive: map<string, string>, n: nat)
    requires 1 <= n <= |records|
    ensures var r := records[n - 1];
      var ordinary, isolated := OrdinaryIds(records, exclusive, n - 1), ExclusiveIds(records, exclusive, n - 1);
      && OrdinaryIds(records, exclusive, n) == (if IsExclusive(r, exclusive) then ordinary else ordinary + {r.id})
      && ExclusiveIds(records, exclusive, n) == (if IsExclusive(r, exclusive) then isolated + {r.id} else isolated)
  {}

  lemma {:induction false} GroupingIsExact(records: seq<Record>, exclusive: map<string, string>, n: nat)
    requires n <= |records| && Distinct(Ids(records))
    ensures GroupsExactly(Grouping(records, exclusive, n),
                          OrdinaryIds(records, exclusive, n), ExclusiveIds(records, exclusive, n))
  {
    if n > 0 {
      var r := records[n - 1];
      var ordinary, isolated := OrdinaryIds(records, exclusive, n - 1), ExclusiveIds(records, exclusive, n - 1);
      assert r.id !in ordinary && r.id !in isolated by {
        assert forall i :: 0 <= i < n - 1 ==> Ids(records)[i] != Ids(records)[n - 1];
      }
      GroupingIsExact(records, exclusive, n - 1);
      PlaceKeepsGroupsExact(Grouping(records, exclusive, n - 1), r, exclusive, ordinary, isolated);
      IdSetsStep(records, exclusive, n);
    }
  }

  // ---------------------------------------------------------------- The packing order

  lemma EntryOrder()
    ensures Preorder(EntryLeq) && Antisymmetric(EntryLeq)
  {
    StringOrder();
  }

  ghost predicate DistinctPaths(order: seq<Entry>) {
    forall i, j :: 0 <= i < j < |order| ==> order[i].path != order[j].path
  }

  lemma EntriesOfGroups(g: Groups, timings: map<string, real>)
    requires Distinct(g.files) && forall f :: f in g.files <==> f in g.byFile
    ensures var entries := Entries(g, timings);
      && |entries| == |g.files| && DistinctPaths(entries) && Distinct(entries)
      && forall e: Entry ::
           e in entries <==> e.path in g.byFile && e.weight == Weight(e.path, g.byFile[e.path], timings)
  {
    var entries := Entries(g, timings);
    forall e: Entry | e.path in g.byFile && e.weight == Weight(e.path, g.byFile[e.path], timings) ensures e in entries {
      var i :| 0 <= i < |g.files| && g.files[i] == e.path;
      assert entries[i] == e;
    }
  }

  lemma SortedEntries(entries: seq<Entry>)
    requires DistinctPaths(entries) && Distinct(entries)
    ensures var order := SortBy(entries, EntryLeq);
      && DistinctPaths(order) && Distinct(order) && Sorted(order, EntryLeq) && Packing.Descending(WeightsOf(order))
      && forall e :: e in order <==> e in entries
  {
    var order := SortBy(entries, EntryLeq);
    EntryOrder();
    SortIsSorted(entries, EntryLeq);
    SortPermutes(entries, EntryLeq);
    DistinctSurvivesPermutation(entries, order);
    forall e ensures e in order <==> e in entries { SortKeepsElements(entries, EntryLeq, e); }
    forall i, j | 0 <= i < j < |order| ensures order[i].path != order[j].path {
      assert order[i] in entries && order[j] in entries && order[i] != order[j];
    }
    forall i, j | 0 <= i <= j < |order| ensures order[i].weight >= order[j].weight {
      assert i < j ==> EntryLeq(order[i], order[j]);
    }
  }

  /** The packing order holds every ordinary file once, heaviest first. */
  lemma PackingOrderIsComplete(records: seq<Record>, inputs: Inputs)
    ensures var g := Grouping(records, inputs.exclusive, |records|);
      var order := PackingOrder(records, inputs);
      && |order| == |g.files|
      && DistinctPaths(order) && Distinct(order) && Sorted(order, EntryLeq)
      && Packing.Descending(WeightsOf(order))
      && (forall i, j :: 0 <= i < j < |order| && order[i].weight == order[j].weight
            ==> StringLeq(order[i].path, order[j].path))
      && (forall e :: e in order <==>
            (&& e.path in g.byFile
             && e.weight == if e.path in inputs.timings then inputs.timings[e.path]
                            else 0.5 * |g.byFile[e.path]| as real))
  {
    var g := Grouping(records, inputs.exclusive, |records|);
    FilesAreGrouped(records, inputs.exclusive, |records|);
    EntriesOfGroups(g, inputs.timings);
    SortedEntries(Entries(g, inputs.timings));
  }

  // ---------------------------------------------------------------- Shard contents

  lemma {:induction false} AssignedElements(order: seq<Entry>, byFile: map<string, seq<string>>,
                                            a: seq<nat>, b: nat, n: nat, id: string)
    requires n <= |order| && n <= |a|
    requires forall i :: 0 <= i < |order| ==> order[i].path in byFile
    ensures id in Assigned(order, byFile, a, b, n) <==>
            exists j :: 0 <= j < n && a[j] == b && id in byFile[order[j].path]
  {
    if n > 0 {
      AssignedElements(order, byFile, a, b, n - 1, id);
    }
  }

  lemma {:induction false} AssignedDistinct(order: seq<Entry>, byFile: map<string, seq<string>>,
                                            a: seq<nat>, b: nat, n: nat)
    requires n <= |order| && n <= |a| && DistinctPaths(order)
    requires forall i :: 0 <= i < |order| ==> order[i].path in byFile
    requires forall f :: f in byFile ==> Distinct(byFile[f])
    requires forall f, id :: f in byFile && id in byFile[f] ==> FileOf(id) == f
    ensures Distinct(Assigned(order, byFile, a, b, n))
  {
    if n > 0 {
      AssignedDistinct(order, byFile, a, b, n - 1);
      var before, members := Assigned(order, byFile, a, b, n - 1), byFile[order[n - 1].path];
      forall id | id in before ensures id !in members {
        AssignedElements(order, byFile, a, b, n - 1, id);
        var j :| 0 <= j < n - 1 && a[j] == b && id in byFile[order[j].path];
        assert FileOf(id) == order[j].path != order[n - 1].path;
      }
      DistinctConcat(before, members);
    }
  }

  /** The place of an ordinary file in the packing order. */
  ghost function PlaceOf(records: seq<Record>, inputs: Inputs, file: string): (j: nat)
    requires file in Grouping(records, inputs.exclusive, |records|).byFile
    ensures var order := PackingOrder(records, inputs);
      j < |order| && order[j].path == file && forall k :: 0 <= k < |order| && order[k].path == file ==> k == j
  {
    var order := PackingOrder(records, inputs);
    PackingOrderIsComplete(records, inputs);
    var e := Entry(file, Weight(file, Grouping(records, inputs.exclusive, |records|).byFile[file], inputs.timings));
    assert e in order;
    var j :| 0 <= j < |order| && order[j] == e;
    j
  }

  /** The index of the shard a record belongs to: 0 for an exclusive one, else that of its file. */
  ghost function HomeOf(records: seq<Record>, inputs: Inputs, r: Record): (k: nat)
    requires r in records && inputs.ordinaryShards >= 1 && Distinct(Ids(records))
    ensures k <= inputs.ordinaryShards && (k == 0 <==> IsExclusive(r, inputs.exclusive))
  {
    if IsExclusive(r, inputs.exclusive) then 0
    else
      GroupingIsExact(records, inputs.exclusive, |records|);
      assert r.id in OrdinaryIds(records, inputs.exclusive, |records|);
      var order := PackingOrder(records, inputs);
      Packing.Pack(WeightsOf(order), inputs.ordinaryShards, |order|)[PlaceOf(records, inputs, FileOf(r.id))] + 1
  }

  lemma HomeIsByFile(records: seq<Record>, inputs: Inputs, r: Record, r': Record)
    requires r in records && r' in records && inputs.ordinaryShards >= 1 && Distinct(Ids(records))
    requires !IsExclusive(r, inputs.exclusive) && !IsExclusive(r', inputs.exclusive)
    requires FileOf(r.id) == FileOf(r'.id)
    ensures HomeOf(records, inputs, r) == HomeOf(records, inputs, r')
  {}

  lemma RecordIsPlaced(records: seq<Record>, exclusive: map<string, string>, r: Record)
    requires r in records && Distinct(Ids(records))
    ensures r.id in OrdinaryIds(records, exclusive, |records|) <==> !IsExclusive(r, exclusive)
    ensures r.id in ExclusiveIds(records, exclusive, |records|) <==> IsExclusive(r, exclusive)
  {
    forall s | s in records && s.id == r.id ensures s == r {
      var i :| 0 <= i < |records| && records[i] == r;
      var j :| 0 <= j < |records| && records[j] == s;
      assert Ids(records)[i] == Ids(records)[j];
    }
  }

  lemma PlacedIdsAreCensusIds(records: seq<Record>, exclusive: map<string, string>, id: string)
    ensures id in OrdinaryIds(records, exclusive, |records|) ==> id in Ids(records)
    ensures id in ExclusiveIds(records, exclusive, |records|) ==> id in Ids(records)
  {
    assert forall i :: 0 <= i < |records| ==> records[i].id == Ids(records)[i];
  }

  ghost predicate InOrdinaryShard(records: seq<Record>, inputs: Inputs, b: nat, id: string)
    requires inputs.ordinaryShards >= 1
  {
    && id in OrdinaryIds(records, inputs.exclusive, |records|)
    && FileOf(id) in Grouping(records, inputs.exclusive, |records|).byFile
    && Packing.Pack(WeightsOf(PackingOrder(records, inputs)), inputs.ordinaryShards, |PackingOrder(records, inputs)|)
         [PlaceOf(records, inputs, FileOf(id))] == b
  }

  lemma OrdinaryShardContents(records: seq<Record>, inputs: Inputs, p: Plan, b: nat)
    requires PlanOf(records, inputs) == Ok(p) && b + 1 < |p.shards|
    ensures Distinct(p.shards[b + 1].ids)
    ensures forall id :: id in p.shards[b + 1].ids <==> InOrdinaryShard(records, inputs, b, id)
  {
    var g := Grouping(records, inputs.exclusive, |records|);
    var order := PackingOrder(records, inputs);
    var a := Packing.Pack(WeightsOf(order), inputs.ordinaryShards, |order|);
    var members := Assigned(order, g.byFile, a, b, |order|);
    assert p.shards[b + 1].ids == SortStrings(members);
    GroupingIsExact(records, inputs.exclusive, |records|);
    PackingOrderIsComplete(records, inputs);
    AssignedDistinct(order, g.byFile, a, b, |order|);
    SortPermutes(members, StringLeq);
    DistinctSurvivesPermutation(members, p.shards[b + 1].ids);
    forall id ensures id in p.shards[b + 1].ids <==> InOrdinaryShard(records, inputs, b, id) {
      SortKeepsElements(members, StringLeq, id);
      AssignedElements(order, g.byFile, a, b, |order|, id);
      if FileOf(id) in g.byFile {
        var j := PlaceOf(records, inputs, FileOf(id));
      }
    }
  }

  lemma ExclusiveShardContents(records: seq<Record>, inputs: Inputs, p: Plan)
    requires PlanOf(records, inputs) == Ok(p)
    ensures Distinct(p.shards[0].ids)
    ensures forall id :: id in p.shards[0].ids <==> id in ExclusiveIds(records, inputs.exclusive, |records|)
    ensures forall id :: id in p.shards[0].ids ==> id in Ids(records)
  {
    var g := Grouping(records, inputs.exclusive, |records|);
    GroupingIsExact(records, inputs.exclusive, |records|);
    SortPermutes(g.exclusiveIds, StringLeq);
    DistinctSurvivesPermutation(g.exclusiveIds, p.shards[0].ids);
    forall id ensures id in p.shards[0].ids <==> id in g.exclusiveIds {
      SortKeepsElements(g.exclusiveIds, StringLeq, id);
      PlacedIdsAreCensusIds(records, inputs.exclusive, id);
    }
  }

  lemma HomeMeaning(records: seq<Record>, inputs: Inputs, r: Record, b: nat)
    requires r in records && inputs.ordinaryShards >= 1 && Distinct(Ids(records))
    ensures HomeOf(records, inputs, r) == b + 1 <==> InOrdinaryShard(records, inputs, b, r.id)
  {
    RecordIsPlaced(records, inputs.exclusive, r);
    GroupingIsExact(records, inputs.exclusive, |records|);
  }

  lemma HomeHoldsNode(records: seq<Record>, inputs: Inputs, p: Plan, k: nat, r: Record)
    requires PlanOf(records, inputs) == Ok(p) && k < |p.shards| && r in records
    ensures r.id in p.shards[k].ids <==> HomeOf(records, inputs, r) == k
  {
    if k == 0 {
      ExclusiveShardContents(records, inputs, p);
      RecordIsPlaced(records, inputs.exclusive, r);
    } else {
      OrdinaryShardContents(records, inputs, p, k - 1);
      HomeMeaning(records, inputs, r, k - 1);
    }
  }

  lemma ShardIdsAreCensusIds(records: seq<Record>, inputs: Inputs, p: Plan, k: nat)
    requires PlanOf(records, inputs) == Ok(p) && k < |p.shards|
    ensures Distinct(p.shards[k].ids) && forall id :: id in p.shards[k].ids ==> id in Ids(records)
  {
    if k == 0 {
      ExclusiveShardContents(records, inputs, p);
    } else {
      OrdinaryShardContents(records, inputs, p, k - 1);
      forall id | id in p.shards[k].ids ensures id in Ids(records) {
        assert InOrdinaryShard(records, inputs, k - 1, id);
        PlacedIdsAreCensusIds(records, inputs.exclusive, id);
      }
    }
  }

  lemma ShardNumber(records: seq<Record>, inputs: Inputs, p: Plan)
    requires PlanOf(records, inputs) == Ok(p)
    ensures |p.shards| == p.ordinaryShards + 1 == inputs.ordinaryShards + 1
  {}

  /** Every shard holds exactly the nodes whose home it is, each once. */
  lemma ShardContents(records: seq<Record>, inputs: Inputs, p: Plan, k: nat)
    requires PlanOf(records, inputs) == Ok(p) && k < |p.shards|
    ensures |p.shards| == p.ordinaryShards + 1 == inputs.ordinaryShards + 1
    ensures Distinct(p.shards[k].ids)
    ensures forall r :: r in records ==> (r.id in p.shards[k].ids <==> HomeOf(records, inputs, r) == k)
    ensures forall id :: id in p.shards[k].ids ==> id in Ids(records)
  {
    ShardNumber(records, inputs, p);
    ShardIdsAreCensusIds(records, inputs, p, k);
    forall r | r in records ensures r.id in p.shards[k].ids <==> HomeOf(records, inputs, r) == k {
      HomeHoldsNode(records, inputs, p, k, r);
    }
  }
}
