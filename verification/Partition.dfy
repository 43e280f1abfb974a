/** The audit of a cut: every census node in exactly one shard, no shard empty, made from this census. */
module Partition {
  import opened Order

  datatype Slice = Slice(id: string, ids: seq<string>)

  datatype Problem =
    | EmptyShard(shard: string)
    | InBoth(node: string, first: string, second: string)
    | MissingFromEvery(node: string)
    | NotInCensus(node: string)
    | DifferentCensus

  const REPORTED := 20

  function Flat(slices: seq<Slice>, n: nat): seq<string>
    requires n <= |slices|
  {
    if n == 0 then [] else Flat(slices, n - 1) + slices[n - 1].ids
  }

  /** What the scan over the shards has seen, and reported. */
  datatype Scan = Scan(seen: map<string, string>, problems: seq<Problem>)

  function SeeNode(s: Scan, shard: string, node: string): Scan {
    Scan(s.seen[node := shard],
         if node in s.seen then s.problems + [InBoth(node, s.seen[node], shard)] else s.problems)
  }

  function SeeNodes(s: Scan, shard: string, ids: seq<string>, n: nat): Scan
    requires n <= |ids|
  {
    if n == 0 then s else SeeNode(SeeNodes(s, shard, ids, n - 1), shard, ids[n - 1])
  }

  function SeeShard(s: Scan, slice: Slice): Scan {
    var s' := if slice.ids == [] then s.(problems := s.problems + [EmptyShard(slice.id)]) else s;
    SeeNodes(s', slice.id, slice.ids, |slice.ids|)
  }

  function SeeShards(slices: seq<Slice>, n: nat): Scan
    requires n <= |slices|
  {
    if n == 0 then Scan(map[], []) else SeeShard(SeeShards(slices, n - 1), slices[n - 1])
  }

  function Take<T>(s: seq<T>, n: nat): seq<T> {
    if |s| <= n then s else s[..n]
  }

  function Missing(nodes: seq<string>): (r: seq<Problem>)
    ensures |r| == |nodes| && forall i :: 0 <= i < |r| ==> r[i] == MissingFromEvery(nodes[i])
  {
    seq(|nodes|, i requires 0 <= i < |nodes| => MissingFromEvery(nodes[i]))
  }

  function Invented(nodes: seq<string>): (r: seq<Problem>)
    ensures |r| == |nodes| && forall i :: 0 <= i < |r| ==> r[i] == NotInCensus(nodes[i])
  {
    seq(|nodes|, i requires 0 <= i < |nodes| => NotInCensus(nodes[i]))
  }

  function Elements(s: seq<string>): set<string> {
    set x | x in s
  }

  function CheckOf(slices: seq<Slice>, recorded: string, expected: seq<string>, digest: seq<string> -> string)
      : seq<Problem>
  {
    Findings(SeeShards(slices, |slices|), recorded, expected, digest)
  }

  /** What the scan has reported, the nodes that are missing or foreign, and another census. */
  function Findings(scan: Scan, recorded: string, expected: seq<string>, digest: seq<string> -> string): seq<Problem> {
    scan.problems
    + Missing(Take(Ascending(Elements(expected) - scan.seen.Keys), REPORTED))
    + Invented(Take(Ascending(scan.seen.Keys - Elements(expected)), REPORTED))
    + (if recorded != digest(SortStrings(expected)) then [DifferentCensus] else [])
  }

  method CheckPartition(slices: seq<Slice>, recorded: string, expected: seq<string>, digest: seq<string> -> string)
      returns (problems: seq<Problem>)
    ensures problems == CheckOf(slices, recorded, expected, digest)
  {
    problems := [];
    var seen: map<string, string> := map[];
    for k := 0 to |slices|
      invariant Scan(seen, problems) == SeeShards(slices, k)
    {
      var slice := slices[k];
      ghost var scan := SeeShards(slices, k);
      if slice.ids == [] {
        problems := problems + [EmptyShard(slice.id)];
        scan := scan.(problems := problems);
      }
      for n := 0 to |slice.ids|
        invariant Scan(seen, problems) == SeeNodes(scan, slice.id, slice.ids, n)
      {
        var node := slice.ids[n];
        if node in seen {
          problems := problems + [InBoth(node, seen[node], slice.id)];
        }
        seen := seen[node := slice.id];
      }
    }
    problems := problems + Missing(Take(Ascending(Elements(expected) - seen.Keys), REPORTED));
    problems := problems + Invented(Take(Ascending(seen.Keys - Elements(expected)), REPORTED));
    if recorded != digest(SortStrings(expected)) {
      problems := problems + [DifferentCensus];
    }
  }

  // ---------------------------------------------------------------- What the audit decides

  ghost predicate ExactPartition(slices: seq<Slice>, expected: seq<string>) {
    && (forall k :: 0 <= k < |slices| ==> slices[k].ids != [])
    && Distinct(Flat(slices, |slices|))
    && (forall id :: id in Flat(slices, |slices|) <==> id in expected)
  }

  ghost predicate NoDoubleReport(problems: seq<Problem>) {
    forall q :: q in problems ==> !q.InBoth?
  }

  lemma {:induction false} SeeNodesMeaning(s: Scan, before: seq<string>, shard: string, ids: seq<string>, n: nat)
    requires n <= |ids| && s.seen.Keys == Elements(before)
    requires NoDoubleReport(s.problems) <==> Distinct(before)
    ensures var s' := SeeNodes(s, shard, ids, n);
      && s'.seen.Keys == Elements(before + ids[..n])
      && (NoDoubleReport(s'.problems) <==> Distinct(before + ids[..n]))
      && s.problems <= s'.problems
      && forall q :: q in s'.problems && q !in s.problems ==> q.InBoth?
  {
    if n == 0 {
      assert before + ids[..0] == before;
    } else {
      SeeNodesMeaning(s, before, shard, ids, n - 1);
      var mid, node := before + ids[..n - 1], ids[n - 1];
      assert before + ids[..n] == mid + [node];
      DistinctSnoc(mid, node);
      var s1, s' := SeeNodes(s, shard, ids, n - 1), SeeNodes(s, shard, ids, n);
      if node in s1.seen {
        assert s'.problems[|s'.problems| - 1].InBoth?;
      }
    }
  }

  /** The scan reports each empty shard, and a double node exactly when some node occurs twice. */
  lemma {:induction false} SeeShardsMeaning(slices: seq<Slice>, n: nat)
    requires n <= |slices|
    ensures var s := SeeShards(slices, n);
      && s.seen.Keys == Elements(Flat(slices, n))
      && (NoDoubleReport(s.problems) <==> Distinct(Flat(slices, n)))
      && (forall q :: q in s.problems ==> q.InBoth? || q.EmptyShard?)
      && (forall id :: EmptyShard(id) in s.problems <==> exists k :: 0 <= k < n && slices[k] == Slice(id, []))
  {
    if n > 0 {
      SeeShardsMeaning(slices, n - 1);
      var before, slice := SeeShards(slices, n - 1), slices[n - 1];
      var mid := if slice.ids == [] then before.(problems := before.problems + [EmptyShard(slice.id)]) else before;
      assert NoDoubleReport(mid.problems) <==> NoDoubleReport(before.problems);
      SeeNodesMeaning(mid, Flat(slices, n - 1), slice.id, slice.ids, |slice.ids|);
      assert slice.ids[..|slice.ids|] == slice.ids;
    }
  }

  lemma NothingToReport(s: set<string>)
    ensures Take(Ascending(s), REPORTED) == [] <==> s == {}
  {}

  /** Of the recorded census, seen in full, only what the scan has reported is reported. */
  lemma OnlyTheScan(scan: Scan, recorded: string, expected: seq<string>, digest: seq<string> -> string)
    requires scan.seen.Keys == Elements(expected) && recorded == digest(SortStrings(expected))
    ensures Findings(scan, recorded, expected, digest) == scan.problems
  {
    var none: set<string> := {};
    assert Elements(expected) - scan.seen.Keys == none && scan.seen.Keys - Elements(expected) == none;
    NothingToReport(none);
  }

  lemma EmptyShardsAreSeen(slices: seq<Slice>)
    ensures (forall k :: 0 <= k < |slices| ==> slices[k].ids != [])
       <==> forall id :: EmptyShard(id) !in SeeShards(slices, |slices|).problems
  {
    SeeShardsMeaning(slices, |slices|);
    forall k | 0 <= k < |slices| && slices[k].ids == []
      ensures EmptyShard(slices[k].id) in SeeShards(slices, |slices|).problems
    {
      assert slices[k] == Slice(slices[k].id, []);
    }
  }

  lemma SameElementsIff(a: seq<string>, b: seq<string>)
    ensures Elements(b) == Elements(a) <==> forall id :: id in a <==> id in b
  {
    assert forall id :: (id in Elements(a) <==> id in a) && (id in Elements(b) <==> id in b);
  }

  /** The audit is silent exactly on an exact partition recorded for this census: the cap on reported nodes
      never hides a failure. */
  lemma {:induction false} CheckIff(slices: seq<Slice>, recorded: string, expected: seq<string>,
                                    digest: seq<string> -> string)
    ensures CheckOf(slices, recorded, expected, digest) == [] <==>
            ExactPartition(slices, expected) && recorded == digest(SortStrings(expected))
  {
    var scan := SeeShards(slices, |slices|);
    var flat := Flat(slices, |slices|);
    SeeShardsMeaning(slices, |slices|);
    NothingToReport(Elements(expected) - Elements(flat));
    NothingToReport(Elements(flat) - Elements(expected));
    if scan.problems != [] {
      assert scan.problems[0] in scan.problems;
    }
    EmptyShardsAreSeen(slices);
    SameElementsIff(flat, expected);
  }

  lemma TakenElements(s: set<string>, x: string)
    requires x in Take(Ascending(s), REPORTED)
    ensures x in s
  {
    AscendingElements(s);
    assert x in Ascending(s);
  }

  lemma WhereReported(scan: Scan, recorded: string, expected: seq<string>, digest: seq<string> -> string, q: Problem)
    requires q in Findings(scan, recorded, expected, digest)
    ensures var seen := scan.seen.Keys;
      || q in scan.problems
      || q in Missing(Take(Ascending(Elements(expected) - seen), REPORTED))
      || q in Invented(Take(Ascending(seen - Elements(expected)), REPORTED))
      || q == DifferentCensus
  {}

  lemma ReportedMeaning(scan: Scan, recorded: string, expected: seq<string>, digest: seq<string> -> string, q: Problem)
    requires q in Findings(scan, recorded, expected, digest)
    requires q in scan.problems ==> !q.MissingFromEvery? && !q.NotInCensus?
    ensures q.MissingFromEvery? ==> q.node in expected && q.node !in scan.seen
    ensures q.NotInCensus? ==> q.node !in expected && q.node in scan.seen
  {
    var seen := scan.seen.Keys;
    WhereReported(scan, recorded, expected, digest, q);
    if q.MissingFromEvery? { TakenElements(Elements(expected) - seen, q.node); }
    if q.NotInCensus? { TakenElements(seen - Elements(expected), q.node); }
  }

  /** A node is reported as missing, or as invented, only if it is. */
  lemma ReportedNodes(slices: seq<Slice>, recorded: string, expected: seq<string>, digest: seq<string> -> string,
                      q: Problem)
    requires q in CheckOf(slices, recorded, expected, digest)
    ensures q.MissingFromEvery? ==> q.node in expected && q.node !in Flat(slices, |slices|)
    ensures q.NotInCensus? ==> q.node !in expected && q.node in Flat(slices, |slices|)
  {
    var scan, flat := SeeShards(slices, |slices|), Flat(slices, |slices|);
    SeeShardsMeaning(slices, |slices|);
    assert forall id :: id in scan.seen <==> id in Elements(flat);
    ReportedMeaning(scan, recorded, expected, digest, q);
  }
}
