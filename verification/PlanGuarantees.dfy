/** The plan against its audit, against other collection orders, and against other assignments. */
module PlanGuarantees {
  import opened Wrappers
  import opened Order
  import opened ShardPlan
  import opened PlanTheorems
  import GrahamBound
  import Packing
  import Partition

  function Slices(p: Plan): (r: seq<Partition.Slice>)
    ensures |r| == |p.shards|
    ensures forall k :: 0 <= k < |r| ==> r[k] == Partition.Slice(p.shards[k].id, p.shards[k].ids)
  {
    seq(|p.shards|, k requires 0 <= k < |p.shards| => Partition.Slice(p.shards[k].id, p.shards[k].ids))
  }

  lemma IdOfRecord(records: seq<Record>, id: string) returns (r: Record)
    requires id in Ids(records)
    ensures r in records && r.id == id
  {
    var i :| 0 <= i < |records| && Ids(records)[i] == id;
    r := records[i];
  }

  /** Nodes of an earlier home and nodes of home `n`, listed one after the other. */
  lemma ListedUpTo(records: seq<Record>, homes: map<Record, nat>, before: seq<string>, ids: seq<string>, n: nat)
    requires forall r :: r in records ==> r in homes
    requires forall r :: r in records ==> (r.id in before <==> homes[r] < n) && (r.id in ids <==> homes[r] == n)
    requires Distinct(before) && Distinct(ids) && forall id :: id in before || id in ids ==> id in Ids(records)
    ensures Distinct(before + ids) && forall id :: id in before + ids ==> id in Ids(records)
    ensures forall r :: r in records ==> (r.id in before + ids <==> homes[r] < n + 1)
  {
    forall id | id in before ensures id !in ids {
      var r := IdOfRecord(records, id);
    }
    DistinctConcat(before, ids);
  }

  ghost predicate HoldsHome(records: seq<Record>, homes: map<Record, nat>, ids: seq<string>, k: nat) {
    && Distinct(ids) && (forall id :: id in ids ==> id in Ids(records))
    && forall r :: r in records ==> r in homes && (r.id in ids <==> homes[r] == k)
  }

  lemma {:induction false} FlatByHome(records: seq<Record>, homes: map<Record, nat>, slices: seq<Partition.Slice>,
                                      n: nat)
    requires n <= |slices| && forall r :: r in records ==> r in homes
    requires forall k :: 0 <= k < n ==> HoldsHome(records, homes, slices[k].ids, k)
    ensures Distinct(Partition.Flat(slices, n))
    ensures forall r :: r in records ==> (r.id in Partition.Flat(slices, n) <==> homes[r] < n)
    ensures forall id :: id in Partition.Flat(slices, n) ==> id in Ids(records)
  {
    if n > 0 {
      FlatByHome(records, homes, slices, n - 1);
      assert HoldsHome(records, homes, slices[n - 1].ids, n - 1);
      ListedUpTo(records, homes, Partition.Flat(slices, n - 1), slices[n - 1].ids, n - 1);
    }
  }

  /** Up to any shard, the listed nodes are those whose home is before it, each once. */
  lemma FlatOfPlan(records: seq<Record>, inputs: Inputs, p: Plan, n: nat)
    requires PlanOf(records, inputs) == Ok(p) && n <= |p.shards|
    ensures Distinct(Partition.Flat(Slices(p), n))
    ensures forall r :: r in records ==>
      (r.id in Partition.Flat(Slices(p), n) <==> HomeOf(records, inputs, r) < n)
    ensures forall id :: id in Partition.Flat(Slices(p), n) ==> id in Ids(records)
  {
    var homes := map r | r in records :: HomeOf(records, inputs, r);
    forall k | 0 <= k < n ensures HoldsHome(records, homes, Slices(p)[k].ids, k) {
      ShardContents(records, inputs, p, k);
    }
    FlatByHome(records, homes, Slices(p), n);
  }

  lemma ShardCount(records: seq<Record>, inputs: Inputs, p: Plan)
    requires PlanOf(records, inputs) == Ok(p)
    ensures |p.shards| == inputs.ordinaryShards + 1 && Distinct(Ids(records)) && inputs.ordinaryShards >= 1
  {}

  lemma PlanCoversCensus(records: seq<Record>, inputs: Inputs, p: Plan)
    requires PlanOf(records, inputs) == Ok(p)
    ensures Distinct(Partition.Flat(Slices(p), |p.shards|))
    ensures forall id :: id in Partition.Flat(Slices(p), |p.shards|) <==> id in Ids(records)
  {
    ShardCount(records, inputs, p);
    FlatOfPlan(records, inputs, p, |p.shards|);
    forall id | id in Ids(records) ensures id in Partition.Flat(Slices(p), |p.shards|) {
      var r := IdOfRecord(records, id);
      assert HomeOf(records, inputs, r) <= inputs.ordinaryShards;
    }
  }

  /** Auditing a fresh plan against its own census reports its empty shards and nothing else. */
  lemma PlanThenCheck(records: seq<Record>, inputs: Inputs, p: Plan, q: Partition.Problem)
    requires PlanOf(records, inputs) == Ok(p)
    ensures q in Partition.CheckOf(Slices(p), p.censusDigest, Ids(records), inputs.digest) <==>
            q.EmptyShard? && exists k :: 0 <= k < |p.shards| && Slices(p)[k] == Partition.Slice(q.shard, [])
  {
    var slices, ids := Slices(p), Ids(records);
    PlanCoversCensus(records, inputs, p);
    Partition.SeeShardsMeaning(slices, |slices|);
    var scan := Partition.SeeShards(slices, |slices|);
    assert scan.seen.Keys == Partition.Elements(ids);
    Partition.OnlyTheScan(scan, p.censusDigest, ids, inputs.digest);
  }

  // ---------------------------------------------------------------- Isolation and whole files

  /** Every node is in one shard: the exclusive one exactly when it has a tier or an exclusive file. */
  lemma Isolation(records: seq<Record>, inputs: Inputs, p: Plan, r: Record) returns (home: nat)
    requires PlanOf(records, inputs) == Ok(p) && r in records
    ensures home < |p.shards| && (home == 0 <==> r.tiers != [] || FileOf(r.id) in inputs.exclusive)
    ensures forall k :: 0 <= k < |p.shards| ==> (r.id in p.shards[k].ids <==> k == home)
  {
    ShardCount(records, inputs, p);
    home := HomeOf(records, inputs, r);
    forall k | 0 <= k < |p.shards| ensures r.id in p.shards[k].ids <==> k == home {
      ShardContents(records, inputs, p, k);
    }
  }

  /** Two ordinary nodes of one file are in the same shard. */
  lemma WholeFiles(records: seq<Record>, inputs: Inputs, p: Plan, r: Record, r': Record, k: nat)
    requires PlanOf(records, inputs) == Ok(p) && r in records && r' in records && k < |p.shards|
    requires !IsExclusive(r, inputs.exclusive) && !IsExclusive(r', inputs.exclusive)
    requires FileOf(r.id) == FileOf(r'.id)
    ensures r.id in p.shards[k].ids <==> r'.id in p.shards[k].ids
  {
    ShardCount(records, inputs, p);
    ShardContents(records, inputs, p, k);
    HomeIsByFile(records, inputs, r, r');
  }

  // ---------------------------------------------------------------- Order of the census

  lemma IdsConcat(a: seq<Record>, r: Record, b: seq<Record>)
    ensures multiset(Ids(a + [r] + b)) == multiset{r.id} + multiset(Ids(a + b))
  {
    assert Ids(a + [r] + b) == Ids(a) + [r.id] + Ids(b);
    assert Ids(a + b) == Ids(a) + Ids(b);
  }

  lemma {:induction false} IdsPermute(records: seq<Record>, records': seq<Record>)
    requires multiset(records) == multiset(records')
    ensures multiset(Ids(records)) == multiset(Ids(records'))
  {
    if records == [] {
      assert |records'| == |multiset(records')| == 0;
    } else {
      var front, back := FirstIn(records, records');
      IdsPermute(records[1..], front + back);
      IdsConcat([], records[0], records[1..]);
      IdsConcat(front, records[0], back);
    }
  }

  lemma SameIdSets(records: seq<Record>, records': seq<Record>, exclusive: map<string, string>)
    requires multiset(records) == multiset(records')
    ensures OrdinaryIds(records, exclusive, |records|) == OrdinaryIds(records', exclusive, |records'|)
    ensures ExclusiveIds(records, exclusive, |records|) == ExclusiveIds(records', exclusive, |records'|)
  {
    PermutationKeepsElements(records, records');
    SubIdSets(records, records', exclusive);
    SubIdSets(records', records, exclusive);
  }

  lemma SubIdSets(records: seq<Record>, records': seq<Record>, exclusive: map<string, string>)
    requires forall r :: r in records ==> r in records'
    ensures OrdinaryIds(records, exclusive, |records|) <= OrdinaryIds(records', exclusive, |records'|)
    ensures ExclusiveIds(records, exclusive, |records|) <= ExclusiveIds(records', exclusive, |records'|)
  {
    forall i | 0 <= i < |records|
      ensures !IsExclusive(records[i], exclusive) ==> records[i].id in OrdinaryIds(records', exclusive, |records'|)
      ensures IsExclusive(records[i], exclusive) ==> records[i].id in ExclusiveIds(records', exclusive, |records'|)
    {
      assert records[i] in records';
      var j :| 0 <= j < |records'| && records'[j] == records[i];
    }
  }

  /** The groups of two collection orders hold the same files, with the same members up to order. */
  lemma GroupsPermute(g: Groups, g': Groups, ordinary: set<string>, isolated: set<string>)
    requires GroupsExactly(g, ordinary, isolated) && GroupsExactly(g', ordinary, isolated)
    ensures multiset(g.exclusiveIds) == multiset(g'.exclusiveIds)
    ensures g.byFile.Keys == g'.byFile.Keys
    ensures forall f :: f in g.byFile ==> multiset(g.byFile[f]) == multiset(g'.byFile[f])
  {
    DistinctSameElements(g.exclusiveIds, g'.exclusiveIds);
    FilesAgree(g, g', ordinary, isolated);
    FilesAgree(g', g, ordinary, isolated);
    forall f | f in g.byFile ensures multiset(g.byFile[f]) == multiset(g'.byFile[f]) {
      forall id ensures id in g.byFile[f] <==> id in g'.byFile[f] {
        assert id in g.byFile[f] <==> id in ordinary && FileOf(id) == f;
        assert id in g'.byFile[f] <==> id in ordinary && FileOf(id) == f;
      }
      DistinctSameElements(g.byFile[f], g'.byFile[f]);
    }
  }

  lemma FilesAgree(g: Groups, g': Groups, ordinary: set<string>, isolated: set<string>)
    requires GroupsExactly(g, ordinary, isolated) && GroupsExactly(g', ordinary, isolated)
    ensures g.byFile.Keys <= g'.byFile.Keys
  {
    forall f | f in g.byFile ensures f in g'.byFile {
      var id := g.byFile[f][0];
      assert id in g.byFile[f];
      assert id in ordinary && FileOf(id) == f;
    }
  }

  lemma CensusGroupsPermute(records: seq<Record>, records': seq<Record>, exclusive: map<string, string>)
    requires multiset(records) == multiset(records') && Distinct(Ids(records))
    ensures var g, g' := Grouping(records, exclusive, |records|), Grouping(records', exclusive, |records'|);
      && multiset(g.exclusiveIds) == multiset(g'.exclusiveIds)
      && g.byFile.Keys == g'.byFile.Keys
      && forall f :: f in g.byFile ==> multiset(g.byFile[f]) == multiset(g'.byFile[f])
  {
    IdsPermute(records, records');
    DistinctSurvivesPermutation(Ids(records), Ids(records'));
    SameIdSets(records, records', exclusive);
    GroupingIsExact(records, exclusive, |records|);
    GroupingIsExact(records', exclusive, |records'|);
    GroupsPermute(Grouping(records, exclusive, |records|), Grouping(records', exclusive, |records'|),
                  OrdinaryIds(records, exclusive, |records|), ExclusiveIds(records, exclusive, |records|));
  }

  lemma SamePackingOrder(records: seq<Record>, records': seq<Record>, inputs: Inputs)
    requires multiset(records) == multiset(records') && Distinct(Ids(records))
    ensures PackingOrder(records, inputs) == PackingOrder(records', inputs)
  {
    var order, order' := PackingOrder(records, inputs), PackingOrder(records', inputs);
    var g, g' := Grouping(records, inputs.exclusive, |records|), Grouping(records', inputs.exclusive, |records'|);
    CensusGroupsPermute(records, records', inputs.exclusive);
    PackingOrderIsComplete(records, inputs);
    PackingOrderIsComplete(records', inputs);
    forall e ensures e in order <==> e in order' {
      if e.path in g.byFile {
        PermutationKeepsElements(g.byFile[e.path], g'.byFile[e.path]);
      }
    }
    DistinctSameElements(order, order');
    EntryOrder();
    SortedIsUnique(order, order', EntryLeq);
  }

  lemma {:induction false} SameAssignedMembers(order: seq<Entry>, byFile: map<string, seq<string>>,
                                               byFile': map<string, seq<string>>, a: seq<nat>, b: nat, n: nat)
    requires n <= |order| && n <= |a|
    requires forall i :: 0 <= i < |order| ==> order[i].path in byFile && order[i].path in byFile'
    requires forall f :: f in byFile && f in byFile' ==> multiset(byFile[f]) == multiset(byFile'[f])
    ensures multiset(Assigned(order, byFile, a, b, n)) == multiset(Assigned(order, byFile', a, b, n))
  {
    if n > 0 {
      SameAssignedMembers(order, byFile, byFile', a, b, n - 1);
    }
  }

  lemma SameShard(order: seq<Entry>, g: Groups, g': Groups, a: seq<nat>, b: nat, load: real)
    requires |a| == |order| && forall i :: 0 <= i < |order| ==> order[i].path in g.byFile && order[i].path in g'.byFile
    requires forall f :: f in g.byFile && f in g'.byFile ==> multiset(g.byFile[f]) == multiset(g'.byFile[f])
    ensures OrdinaryShard(b, Assigned(order, g.byFile, a, b, |order|), load)
         == OrdinaryShard(b, Assigned(order, g'.byFile, a, b, |order|), load)
  {
    var s, s' := Assigned(order, g.byFile, a, b, |order|), Assigned(order, g'.byFile, a, b, |order|);
    SameAssignedMembers(order, g.byFile, g'.byFile, a, b, |order|);
    StringOrder();
    SortIgnoresOrder(s, s', StringLeq);
    PermutationKeepsElements(s, s');
  }

  lemma SameShards(order: seq<Entry>, g: Groups, g': Groups, a: seq<nat>, m: nat)
    requires |a| == |order| && forall i :: 0 <= i < |order| ==> order[i].path in g.byFile && order[i].path in g'.byFile
    requires forall f :: f in g.byFile && f in g'.byFile ==> multiset(g.byFile[f]) == multiset(g'.byFile[f])
    requires multiset(g.exclusiveIds) == multiset(g'.exclusiveIds)
    ensures ShardsOf(g, order, a, m) == ShardsOf(g', order, a, m)
  {
    StringOrder();
    SortIgnoresOrder(g.exclusiveIds, g'.exclusiveIds, StringLeq);
    PermutationKeepsElements(g.exclusiveIds, g'.exclusiveIds);
    var w := WeightsOf(order);
    forall b: nat | b < m
      ensures var load := Packing.Load(w, a, b, |order|);
        OrdinaryShard(b, Assigned(order, g.byFile, a, b, |order|), load)
        == OrdinaryShard(b, Assigned(order, g'.byFile, a, b, |order|), load)
    {
      SameShard(order, g, g', a, b, Packing.Load(w, a, b, |order|));
    }
  }

  ghost predicate SamePlan(r: Result<Plan, PlanError>, r': Result<Plan, PlanError>) {
    match (r, r')
    case (Ok(p), Ok(p')) => p.(exclusiveReasons := p'.exclusiveReasons) == p'
    case _ => r == r'
  }

  /** The plan does not depend on the order in which the census lists its tests, except for the reasons. */
  lemma OrderIndependence(records: seq<Record>, records': seq<Record>, inputs: Inputs)
    requires multiset(records) == multiset(records')
    ensures SamePlan(PlanOf(records, inputs), PlanOf(records', inputs))
  {
    IdsPermute(records, records');
    PermutationKeepsElements(records, records');
    if Distinct(Ids(records)) {
      DistinctSurvivesPermutation(Ids(records), Ids(records'));
      if inputs.ordinaryShards >= 1 {
        SameCut(records, records', inputs);
      }
    } else if Distinct(Ids(records')) {
      DistinctSurvivesPermutation(Ids(records'), Ids(records));
    }
  }

  lemma SameCut(records: seq<Record>, records': seq<Record>, inputs: Inputs)
    requires multiset(records) == multiset(records') && inputs.ordinaryShards >= 1
    requires Distinct(Ids(records)) && Distinct(Ids(records'))
    ensures SamePlan(PlanOf(records, inputs), PlanOf(records', inputs))
  {
    IdsPermute(records, records');
    PermutationKeepsElements(records, records');
    StringOrder();
    SortIgnoresOrder(Ids(records), Ids(records'), StringLeq);
    SamePackingOrder(records, records', inputs);
    CensusGroupsPermute(records, records', inputs.exclusive);
    var order := PackingOrder(records, inputs);
    var order' := PackingOrder(records', inputs);
    assert forall i :: 0 <= i < |order'| ==> order[i] == order'[i];
    SameShards(order, Grouping(records, inputs.exclusive, |records|), Grouping(records', inputs.exclusive, |records'|),
               Packing.Pack(WeightsOf(order), inputs.ordinaryShards, |order|), inputs.ordinaryShards);
  }

  // ---------------------------------------------------------------- Exclusive reasons

  function Reasons(records: seq<Record>, exclusive: map<string, string>): map<string, string> {
    Grouping(records, exclusive, |records|).reasons
  }

  /** All exclusive records of one file give the same reason. */
  ghost predicate OneReasonPerFile(records: seq<Record>, exclusive: map<string, string>) {
    forall r, s ::
      (r in records && s in records && IsExclusive(r, exclusive) && IsExclusive(s, exclusive)
       && FileOf(r.id) == FileOf(s.id)) ==>
      ReasonOf(r, exclusive) == ReasonOf(s, exclusive)
  }

  /** Some exclusive record among the first `n` of file `f` gives this reason. */
  ghost predicate GivesReason(records: seq<Record>, exclusive: map<string, string>, n: nat, f: string, reason: string)
    requires n <= |records|
  {
    exists i :: 0 <= i < n && IsExclusive(records[i], exclusive)
      && FileOf(records[i].id) == f && ReasonOf(records[i], exclusive) == reason
  }

  lemma {:induction false} ReasonsComeFromRecords(
          records: seq<Record>, exclusive: map<string, string>, n: nat, f: string)
    requires n <= |records|
    ensures var m := Grouping(records, exclusive, n).reasons;
      && (f in m ==> GivesReason(records, exclusive, n, f, m[f]))
      && (f !in m ==> forall i :: 0 <= i < n && IsExclusive(records[i], exclusive) ==> FileOf(records[i].id) != f)
  {
    if n > 0 {
      ReasonsComeFromRecords(records, exclusive, n - 1, f);
      var before, m := Grouping(records, exclusive, n - 1).reasons, Grouping(records, exclusive, n).reasons;
      if f in m && !(IsExclusive(records[n - 1], exclusive) && FileOf(records[n - 1].id) == f) {
        assert f in before && before[f] == m[f] && GivesReason(records, exclusive, n - 1, f, m[f]);
      }
    }
  }

  lemma {:induction false} GroupingOfPrefix(a: seq<Record>, b: seq<Record>, exclusive: map<string, string>, n: nat)
    requires n <= |a|
    ensures Grouping(a + b, exclusive, n) == Grouping(a, exclusive, n)
  {
    if n > 0 { GroupingOfPrefix(a, b, exclusive, n - 1); }
  }

  lemma LastReasonWins(front: seq<Record>, r: Record, exclusive: map<string, string>)
    requires IsExclusive(r, exclusive)
    ensures var m := Reasons(front + [r], exclusive);
      FileOf(r.id) in m && m[FileOf(r.id)] == ReasonOf(r, exclusive)
  {
    GroupingOfPrefix(front, [r], exclusive, |front|);
  }

  lemma MoveLast(records: seq<Record>, r: Record) returns (front: seq<Record>)
    requires r in records
    ensures multiset(front + [r]) == multiset(records)
  {
    var i :| 0 <= i < |records| && records[i] == r;
    front := records[..i] + records[i + 1..];
    assert records == records[..i] + [r] + records[i + 1..];
  }

  lemma ReasonsAgree(records: seq<Record>, records': seq<Record>, exclusive: map<string, string>)
    requires multiset(records) == multiset(records') && OneReasonPerFile(records, exclusive)
    ensures Reasons(records, exclusive) == Reasons(records', exclusive)
  {
    PermutationKeepsElements(records, records');
    var m, m' := Reasons(records, exclusive), Reasons(records', exclusive);
    forall f ensures f in m <==> f in m'
             ensures f in m && f in m' ==> m[f] == m'[f]
    {
      SubReasons(records, records', exclusive, f);
      SubReasons(records', records, exclusive, f);
    }
  }

  lemma SubReasons(records: seq<Record>, records': seq<Record>, exclusive: map<string, string>, f: string)
    requires (forall r :: r in records <==> r in records') && OneReasonPerFile(records, exclusive)
    ensures var m, m' := Reasons(records, exclusive), Reasons(records', exclusive);
      f in m ==> f in m' && m[f] == m'[f]
  {
    ReasonsComeFromRecords(records, exclusive, |records|, f);
    ReasonsComeFromRecords(records', exclusive, |records'|, f);
    var m, m' := Reasons(records, exclusive), Reasons(records', exclusive);
    if f in m {
      var i :| 0 <= i < |records| && IsExclusive(records[i], exclusive)
        && FileOf(records[i].id) == f && ReasonOf(records[i], exclusive) == m[f];
      assert records[i] in records';
      var j :| 0 <= j < |records'| && records'[j] == records[i];
      var k :| 0 <= k < |records'| && IsExclusive(records'[k], exclusive)
        && FileOf(records'[k].id) == f && ReasonOf(records'[k], exclusive) == m'[f];
      assert records'[k] in records;
    }
  }

  lemma EndingWith(records: seq<Record>, r: Record, exclusive: map<string, string>) returns (moved: seq<Record>)
    requires r in records && IsExclusive(r, exclusive)
    ensures multiset(moved) == multiset(records)
    ensures var m := Reasons(moved, exclusive); FileOf(r.id) in m && m[FileOf(r.id)] == ReasonOf(r, exclusive)
  {
    var front := MoveLast(records, r);
    moved := front + [r];
    LastReasonWins(front, r, exclusive);
  }

  /** The recorded reasons are the same for every collection order exactly when no file has two of them. */
  lemma ReasonsOrderIndependentIff(records: seq<Record>, exclusive: map<string, string>)
    ensures (forall records' :: multiset(records') == multiset(records) ==>
              Reasons(records', exclusive) == Reasons(records, exclusive)) <==>
            OneReasonPerFile(records, exclusive)
  {
    if OneReasonPerFile(records, exclusive) {
      forall records' | multiset(records') == multiset(records)
        ensures Reasons(records', exclusive) == Reasons(records, exclusive)
      {
        ReasonsAgree(records, records', exclusive);
      }
    } else {
      var r, s :| r in records && s in records && IsExclusive(r, exclusive) && IsExclusive(s, exclusive)
        && FileOf(r.id) == FileOf(s.id) && ReasonOf(r, exclusive) != ReasonOf(s, exclusive);
      var a := EndingWith(records, r, exclusive);
      var b := EndingWith(records, s, exclusive);
      assert Reasons(a, exclusive) != Reasons(b, exclusive);
    }
  }

  lemma {:induction false} FileOfNode(path: string, rest: string)
    requires ':' !in path
    ensures FileOf(path + "::" + rest) == path
  {
    var id := path + "::" + rest;
    if path == [] {
      assert id[..2] == "::";
    } else {
      assert id[1..] == path[1..] + "::" + rest && id[0] == path[0];
      assert id[..2][0] != "::"[0];
      FileOfNode(path[1..], rest);
    }
  }

  lemma TwoReasonsOneFile(r: Record, s: Record, exclusive: map<string, string>)
    requires IsExclusive(r, exclusive) && IsExclusive(s, exclusive) && FileOf(r.id) == FileOf(s.id)
    requires ReasonOf(r, exclusive) != ReasonOf(s, exclusive)
    ensures Reasons([r, s], exclusive) != Reasons([s, r], exclusive)
  {
    assert [r, s] == [r] + [s] && [s, r] == [s] + [r];
    LastReasonWins([r], s, exclusive);
    LastReasonWins([s], r, exclusive);
  }

  /** A Docker test and a JVM test in one file: the census order decides which tier the plan records. */
  lemma ReasonsDependOnOrder()
    ensures Reasons([Record("t.py::a", ["docker"]), Record("t.py::b", ["jvm"])], map[])
         != Reasons([Record("t.py::b", ["jvm"]), Record("t.py::a", ["docker"])], map[])
  {
    FileOfNode("t.py", "a");
    FileOfNode("t.py", "b");
    assert "t.py" + "::" + "a" == "t.py::a" && "t.py" + "::" + "b" == "t.py::b";
    var docker, jvm := Record("t.py::a", ["docker"]), Record("t.py::b", ["jvm"]);
    assert |ReasonOf(docker, map[])| == 11 && |ReasonOf(jvm, map[])| == 8;
    TwoReasonsOneFile(docker, jvm, map[]);
  }

  // ---------------------------------------------------------------- Balance

  ghost predicate TimingsNonNegative(inputs: Inputs) {
    forall f :: f in inputs.timings ==> inputs.timings[f] >= 0.0
  }

  lemma PackingIsSound(records: seq<Record>, inputs: Inputs)
    requires inputs.ordinaryShards >= 1 && TimingsNonNegative(inputs)
    ensures var w := WeightsOf(PackingOrder(records, inputs));
      && Packing.NonNegative(w) && Packing.Descending(w)
      && Packing.Greedy(w, Packing.Pack(w, inputs.ordinaryShards, |w|), inputs.ordinaryShards)
  {
    var order := PackingOrder(records, inputs);
    PackingOrderIsComplete(records, inputs);
    Packing.PackIsGreedy(WeightsOf(order), inputs.ordinaryShards);
    forall i | 0 <= i < |order| ensures order[i].weight >= 0.0 {
      assert order[i] in order;
    }
  }

  /** The shard that `other` gives each file of the packing order. */
  function Alternative(order: seq<Entry>, other: map<string, nat>): (a: seq<nat>)
    requires forall e :: e in order ==> e.path in other
    ensures |a| == |order| && forall j :: 0 <= j < |a| ==> a[j] == other[order[j].path]
  {
    seq(|order|, j requires 0 <= j < |order| => other[order[j].path])
  }

  /** `other` assigns every ordinary file to one of as many shards, none of them heavier than `best`. */
  ghost predicate AssignsWithin(records: seq<Record>, inputs: Inputs, other: map<string, nat>, best: real) {
    var order := PackingOrder(records, inputs);
    && inputs.ordinaryShards >= 0
    && (forall e :: e in order ==> e.path in other)
    && GrahamBound.FitsWithin(WeightsOf(order), Alternative(order, other), inputs.ordinaryShards, best)
  }

  /** The weights of the files of ordinary shard `b`, added up. */
  function ShardLoad(records: seq<Record>, inputs: Inputs, b: nat): real
    requires inputs.ordinaryShards >= 1
  {
    var w := WeightsOf(PackingOrder(records, inputs));
    Packing.Load(w, Packing.Pack(w, inputs.ordinaryShards, |w|), b, |w|)
  }

  /** A shard shows its load, rounded to a tenth. */
  lemma ShardWeight(records: seq<Record>, inputs: Inputs, p: Plan, b: nat)
    requires PlanOf(records, inputs) == Ok(p) && b < inputs.ordinaryShards
    ensures inputs.ordinaryShards >= 1 && b + 1 < |p.shards|
    ensures p.shards[b + 1].weight == Some(RoundTenth(ShardLoad(records, inputs, b)))
  {}

  /** No assignment of the same files to as many shards has a heaviest shard lighter than 3m/(4m - 1) of the
      heaviest shard of the plan. */
  lemma PlanIsNearlyOptimal(records: seq<Record>, inputs: Inputs, p: Plan, other: map<string, nat>, best: real, b: nat)
    requires PlanOf(records, inputs) == Ok(p) && TimingsNonNegative(inputs) && b < inputs.ordinaryShards
    requires AssignsWithin(records, inputs, other, best)
    ensures b + 1 < |p.shards| && p.shards[b + 1].weight == Some(RoundTenth(ShardLoad(records, inputs, b)))
    ensures GrahamBound.WithinGraham(inputs.ordinaryShards, ShardLoad(records, inputs, b), best)
  {
    ShardWeight(records, inputs, p, b);
    PackingIsSound(records, inputs);
    var order := PackingOrder(records, inputs);
    var load := GrahamBound.PackBound(WeightsOf(order), inputs.ordinaryShards, Alternative(order, other), best, b);
  }

  /** The loads of two ordinary shards differ by at most the heaviest file. */
  lemma PlanIsBalanced(records: seq<Record>, inputs: Inputs, heaviest: real, b: nat, c: nat)
    requires TimingsNonNegative(inputs) && b < inputs.ordinaryShards && c < inputs.ordinaryShards
    requires heaviest >= 0.0 && forall e :: e in PackingOrder(records, inputs) ==> e.weight <= heaviest
    ensures ShardLoad(records, inputs, b) - ShardLoad(records, inputs, c) <= heaviest
  {
    var order := PackingOrder(records, inputs);
    var w := WeightsOf(order);
    PackingIsSound(records, inputs);
    assert forall i :: 0 <= i < |order| ==> order[i] in order;
    Packing.SpreadBounded(w, Packing.Pack(w, inputs.ordinaryShards, |w|), inputs.ordinaryShards, |w|, heaviest, b, c);
  }

  // ---------------------------------------------------------------- Empty shards

  lemma OrdinaryShardIsUsed(records: seq<Record>, inputs: Inputs, p: Plan, b: nat)
    requires PlanOf(records, inputs) == Ok(p) && b < inputs.ordinaryShards
    ensures inputs.ordinaryShards >= 1 && b + 1 < |p.shards|
    ensures var w := WeightsOf(PackingOrder(records, inputs));
      p.shards[b + 1].ids != [] <==> Packing.Used(Packing.Pack(w, inputs.ordinaryShards, |w|), b)
  {
    var order := PackingOrder(records, inputs);
    var g := Grouping(records, inputs.exclusive, |records|);
    var a := Packing.Pack(WeightsOf(order), inputs.ordinaryShards, |order|);
    var members := Assigned(order, g.byFile, a, b, |order|);
    GroupingIsExact(records, inputs.exclusive, |records|);
    assert p.shards[b + 1].ids == SortStrings(members);
    if Packing.Used(a, b) {
      var j :| 0 <= j < |a| && a[j] == b;
      var id := g.byFile[order[j].path][0];
      assert id in g.byFile[order[j].path];
      AssignedElements(order, g.byFile, a, b, |order|, id);
    }
    if members != [] {
      AssignedElements(order, g.byFile, a, b, |order|, members[0]);
    }
  }

  /** The number of ordinary files, and of those with a positive weight. */
  function OrdinaryFiles(records: seq<Record>, inputs: Inputs): nat {
    |PackingOrder(records, inputs)|
  }

  function PositiveFiles(records: seq<Record>, inputs: Inputs): nat {
    Packing.Positives(WeightsOf(PackingOrder(records, inputs)))
  }

  /** No ordinary shard is empty exactly when there are at least as many positive files as shards, or one
      fewer and a weightless file. */
  lemma OrdinaryShardsFilledIff(records: seq<Record>, inputs: Inputs, p: Plan)
    requires PlanOf(records, inputs) == Ok(p) && TimingsNonNegative(inputs)
    ensures (forall k :: 1 <= k < |p.shards| ==> p.shards[k].ids != []) <==>
            var m, files := inputs.ordinaryShards, PositiveFiles(records, inputs);
            files >= m || (files == m - 1 && files < OrdinaryFiles(records, inputs))
  {
    ShardCount(records, inputs, p);
    var w := WeightsOf(PackingOrder(records, inputs));
    var a := Packing.Pack(w, inputs.ordinaryShards, |w|);
    PackingIsSound(records, inputs);
    Packing.AllBinsUsedIff(w, a, inputs.ordinaryShards);
    forall b: nat | b < inputs.ordinaryShards ensures p.shards[b + 1].ids != [] <==> Packing.Used(a, b) {
      OrdinaryShardIsUsed(records, inputs, p, b);
    }
    if forall k :: 1 <= k < |p.shards| ==> p.shards[k].ids != [] {
      assert forall b: nat :: b < inputs.ordinaryShards ==> Packing.Used(a, b);
    } else {
      var k :| 1 <= k < |p.shards| && p.shards[k].ids == [];
      assert !Packing.Used(a, k - 1);
    }
  }
}
