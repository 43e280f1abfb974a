/** The audit of a cut in plain terms: which problems it reports, with their nodes and shards. */
module PartitionMeaning {
  import opened Order
  import opened Partition

  // ---------------------------------------------------------------- Nodes listed twice

  /** For every place of the flattened cut, the shard that lists the node there. */
  function Owners(slices: seq<Slice>, n: nat): (r: seq<string>)
    requires n <= |slices|
    ensures |r| == |Flat(slices, n)|
  {
    if n == 0 then [] else Owners(slices, n - 1) + seq(|slices[n - 1].ids|, (i: nat) => slices[n - 1].id)
  }

  /** `node` is listed at `i` by shard `first`, and next at `j` by shard `second`. */
  ghost predicate ListedAgain(flat: seq<string>, owners: seq<string>, i: nat, j: nat, node: string, first: string,
                              second: string)
    requires |flat| == |owners|
  {
    && i < j < |flat| && flat[i] == node == flat[j] && owners[i] == first && owners[j] == second
    && forall k :: i < k < j ==> flat[k] != node
  }

  ghost predicate Twice(flat: seq<string>, owners: seq<string>, node: string, first: string, second: string)
    requires |flat| == |owners|
  {
    exists i: nat, j: nat :: ListedAgain(flat, owners, i, j, node, first, second)
  }

  ghost predicate LastAt(flat: seq<string>, i: nat, node: string) {
    i < |flat| && flat[i] == node && forall k :: i < k < |flat| ==> flat[k] != node
  }

  /** What the scan knows after the flattened cut `flat`. */
  ghost predicate Knows(s: Scan, flat: seq<string>, owners: seq<string>)
    requires |flat| == |owners|
  {
    && (forall node :: node in s.seen <==> node in flat)
    && (forall node, i: nat :: LastAt(flat, i, node) ==> node in s.seen && s.seen[node] == owners[i])
    && (forall node, first, second :: InBoth(node, first, second) in s.problems
          <==> Twice(flat, owners, node, first, second))
  }

  lemma {:induction false} LastExists(flat: seq<string>, node: string) returns (i: nat)
    requires node in flat
    ensures LastAt(flat, i, node)
  {
    var n := |flat| - 1;
    if flat[n] == node {
      i := n;
    } else {
      assert flat == flat[..n] + [flat[n]];
      i := LastExists(flat[..n], node);
      assert forall k :: i < k < n ==> flat[k] == flat[..n][k];
    }
  }

  lemma TwiceGrows(flat: seq<string>, owners: seq<string>, shard: string, own: string, node: string, first: string,
                   second: string)
    requires |flat| == |owners|
    ensures Twice(flat + [own], owners + [shard], node, first, second) <==>
      || Twice(flat, owners, node, first, second)
      || (node == own && second == shard && exists i: nat :: LastAt(flat, i, node) && owners[i] == first)
  {
    var flat', owners' := flat + [own], owners + [shard];
    if i: nat, j: nat :| ListedAgain(flat', owners', i, j, node, first, second) {
      if j < |flat| {
        assert ListedAgain(flat, owners, i, j, node, first, second) by {
          assert forall k :: 0 <= k < |flat| ==> flat'[k] == flat[k] && owners'[k] == owners[k];
        }
      } else {
        assert LastAt(flat, i, node) by { assert forall k :: 0 <= k < |flat| ==> flat'[k] == flat[k]; }
      }
    }
    if i: nat, j: nat :| ListedAgain(flat, owners, i, j, node, first, second) {
      assert ListedAgain(flat', owners', i, j, node, first, second);
    }
    if i: nat :| LastAt(flat, i, node) && owners[i] == first {
      if node == own && second == shard {
        assert ListedAgain(flat', owners', i, |flat|, node, first, second);
      }
    }
  }

  lemma LastAtGrows(flat: seq<string>, own: string, node: string, i: nat)
    ensures LastAt(flat + [own], i, node) <==> if node == own then i == |flat| else LastAt(flat, i, node)
  {
    assert (flat + [own])[|flat|] == own;
    assert forall k :: 0 <= k < |flat| ==> (flat + [own])[k] == flat[k];
    if i < |flat| && node == own { assert (flat + [own])[|flat|] == node; }
  }

  lemma SeeNodeKnows(s: Scan, flat: seq<string>, owners: seq<string>, shard: string, own: string)
    requires |flat| == |owners| && Knows(s, flat, owners)
    ensures Knows(SeeNode(s, shard, own), flat + [own], owners + [shard])
  {
    var s' := SeeNode(s, shard, own);
    forall node, i: nat | LastAt(flat + [own], i, node)
      ensures node in s'.seen && s'.seen[node] == (owners + [shard])[i]
    {
      LastAtGrows(flat, own, node, i);
    }
    forall node, first, second
      ensures InBoth(node, first, second) in s'.problems <==> Twice(flat + [own], owners + [shard], node, first, second)
    {
      TwiceGrows(flat, owners, shard, own, node, first, second);
      if own in flat { var i := LastExists(flat, own); }
    }
  }

  lemma {:induction false} SeeNodesKnows(s: Scan, flat: seq<string>, owners: seq<string>, slice: Slice, n: nat)
    requires n <= |slice.ids| && |flat| == |owners| && Knows(s, flat, owners)
    ensures Knows(SeeNodes(s, slice.id, slice.ids, n), flat + slice.ids[..n], owners + seq(n, (i: nat) => slice.id))
  {
    var named := seq(n, (i: nat) => slice.id);
    if n == 0 {
      assert flat + slice.ids[..0] == flat && owners + named == owners;
    } else {
      var earlier := seq(n - 1, (i: nat) => slice.id);
      SeeNodesKnows(s, flat, owners, slice, n - 1);
      SeeNodeKnows(SeeNodes(s, slice.id, slice.ids, n - 1), flat + slice.ids[..n - 1], owners + earlier, slice.id,
                   slice.ids[n - 1]);
      assert flat + slice.ids[..n] == flat + slice.ids[..n - 1] + [slice.ids[n - 1]];
      assert owners + named == owners + earlier + [slice.id];
    }
  }

  lemma {:induction false} SeeShardsKnows(slices: seq<Slice>, n: nat)
    requires n <= |slices|
    ensures Knows(SeeShards(slices, n), Flat(slices, n), Owners(slices, n))
  {
    if n > 0 {
      SeeShardsKnows(slices, n - 1);
      var before, slice := SeeShards(slices, n - 1), slices[n - 1];
      var mid := if slice.ids == [] then before.(problems := before.problems + [EmptyShard(slice.id)]) else before;
      assert Knows(mid, Flat(slices, n - 1), Owners(slices, n - 1));
      SeeNodesKnows(mid, Flat(slices, n - 1), Owners(slices, n - 1), slice, |slice.ids|);
      assert slice.ids[..|slice.ids|] == slice.ids;
    }
  }

  /** The empty shards among the first `n`. */
  ghost function EmptyShards(slices: seq<Slice>, n: nat): set<int>
    requires n <= |slices|
  {
    set k | 0 <= k < n && slices[k].ids == []
  }

  /** What the scan has reported and seen. */
  ghost function Size(s: Scan): nat {
    |s.problems| + |s.seen.Keys|
  }

  lemma NodeCounted(s: Scan, shard: string, node: string)
    ensures Size(SeeNode(s, shard, node)) == Size(s) + 1
  {
    assert SeeNode(s, shard, node).seen.Keys == s.seen.Keys + {node};
  }

  lemma {:induction false} NodesCounted(s: Scan, slice: Slice, n: nat)
    requires n <= |slice.ids|
    ensures Size(SeeNodes(s, slice.id, slice.ids, n)) == Size(s) + n
  {
    if n > 0 {
      NodesCounted(s, slice, n - 1);
      NodeCounted(SeeNodes(s, slice.id, slice.ids, n - 1), slice.id, slice.ids[n - 1]);
    }
  }

  lemma {:induction false} ShardsCounted(slices: seq<Slice>, n: nat)
    requires n <= |slices|
    ensures Size(SeeShards(slices, n)) == |EmptyShards(slices, n)| + |Flat(slices, n)|
  {
    if n > 0 {
      ShardsCounted(slices, n - 1);
      var before, slice := SeeShards(slices, n - 1), slices[n - 1];
      var mid := if slice.ids == [] then before.(problems := before.problems + [EmptyShard(slice.id)]) else before;
      NodesCounted(mid, slice, |slice.ids|);
      EmptyShardCounted(slices, n);
    }
  }

  lemma EmptyShardCounted(slices: seq<Slice>, n: nat)
    requires 0 < n <= |slices|
    ensures |EmptyShards(slices, n)| == |EmptyShards(slices, n - 1)| + if slices[n - 1].ids == [] then 1 else 0
  {
    assert EmptyShards(slices, n) == EmptyShards(slices, n - 1) + if slices[n - 1].ids == [] then {n - 1} else {};
  }

  /** The scan reports every empty shard once, and a node once for every time that it is listed again. */
  lemma {:induction false} ScanIsCounted(slices: seq<Slice>, n: nat)
    requires n <= |slices|
    ensures |SeeShards(slices, n).problems|
         == |EmptyShards(slices, n)| + |Flat(slices, n)| - |Elements(Flat(slices, n))|
  {
    ShardsCounted(slices, n);
    SeeShardsMeaning(slices, n);
  }

  // ---------------------------------------------------------------- All problems

  /** `list` holds the nodes of one list that are not in the other, ascending. */
  ghost predicate Beyond(list: seq<string>, of: seq<string>, other: seq<string>) {
    Distinct(list) && Sorted(list, StringLeq) && forall id :: id in list <==> id in of && id !in other
  }

  lemma BeyondIs(list: seq<string>, of: seq<string>, other: seq<string>)
    requires Beyond(list, of, other)
    ensures list == Ascending(Elements(of) - Elements(other))
  {
    var s := Elements(of) - Elements(other);
    AscendingElements(s);
    DistinctSameElements(list, Ascending(s));
    StringOrder();
    SortedIsUnique(list, Ascending(s), StringLeq);
  }

  lemma InTaken(s: seq<string>, x: string)
    ensures x in Take(s, REPORTED) <==> exists i :: 0 <= i < |s| && i < 20 && s[i] == x
  {
    if x in Take(s, REPORTED) { var i :| 0 <= i < |Take(s, REPORTED)| && Take(s, REPORTED)[i] == x; }
    if i :| 0 <= i < |s| && i < 20 && s[i] == x { assert Take(s, REPORTED)[i] == x; }
  }

  lemma MissingHas(nodes: seq<string>, q: Problem)
    ensures q in Missing(nodes) <==> q.MissingFromEvery? && q.node in nodes
    ensures q in Invented(nodes) <==> q.NotInCensus? && q.node in nodes
  {
    if q.MissingFromEvery? && q.node in nodes {
      var i :| 0 <= i < |nodes| && nodes[i] == q.node;
      assert Missing(nodes)[i] == q;
    }
    if q.NotInCensus? && q.node in nodes {
      var i :| 0 <= i < |nodes| && nodes[i] == q.node;
      assert Invented(nodes)[i] == q;
    }
  }

  /**
   * Every problem that the audit reports, and no other: an empty shard, a node listed again with the two shards, the
   * first twenty nodes of the census that no shard lists, the first twenty listed nodes that are not of the census,
   * and a cut made from another census.
   */
  lemma {:induction false} ProblemsAre(slices: seq<Slice>, recorded: string, expected: seq<string>,
                                       digest: seq<string> -> string, missing: seq<string>, foreign: seq<string>,
                                       q: Problem)
    requires Beyond(missing, expected, Flat(slices, |slices|)) && Beyond(foreign, Flat(slices, |slices|), expected)
    ensures q in CheckOf(slices, recorded, expected, digest) <==>
      match q
      case EmptyShard(shard) => exists k :: 0 <= k < |slices| && slices[k] == Slice(shard, [])
      case InBoth(node, first, second) =>
        Twice(Flat(slices, |slices|), Owners(slices, |slices|), node, first, second)
      case MissingFromEvery(node) => exists i :: 0 <= i < |missing| && i < 20 && missing[i] == node
      case NotInCensus(node) => exists i :: 0 <= i < |foreign| && i < 20 && foreign[i] == node
      case DifferentCensus => recorded != digest(SortStrings(expected))
  {
    var scan, flat := SeeShards(slices, |slices|), Flat(slices, |slices|);
    SeeShardsMeaning(slices, |slices|);
    SeeShardsKnows(slices, |slices|);
    BeyondIs(missing, expected, flat);
    BeyondIs(foreign, flat, expected);
    MissingHas(Take(missing, REPORTED), q);
    MissingHas(Take(foreign, REPORTED), q);
    if q.MissingFromEvery? { InTaken(missing, q.node); }
    if q.NotInCensus? { InTaken(foreign, q.node); }
  }

  /** And how many there are. */
  lemma {:induction false} ProblemsAreCounted(slices: seq<Slice>, recorded: string, expected: seq<string>,
                                              digest: seq<string> -> string, missing: seq<string>, foreign: seq<string>)
    requires Beyond(missing, expected, Flat(slices, |slices|)) && Beyond(foreign, Flat(slices, |slices|), expected)
    ensures |CheckOf(slices, recorded, expected, digest)|
         == |EmptyShards(slices, |slices|)| + |Flat(slices, |slices|)| - |Elements(Flat(slices, |slices|))|
            + (if |missing| <= 20 then |missing| else 20) + (if |foreign| <= 20 then |foreign| else 20)
            + if recorded != digest(SortStrings(expected)) then 1 else 0
  {
    SeeShardsMeaning(slices, |slices|);
    ScanIsCounted(slices, |slices|);
    BeyondIs(missing, expected, Flat(slices, |slices|));
    BeyondIs(foreign, Flat(slices, |slices|), expected);
  }

  lemma FindingsInOrder(scan: Scan, recorded: string, expected: seq<string>, digest: seq<string> -> string,
                        missing: seq<string>, foreign: seq<string>)
    requires missing == Ascending(Elements(expected) - scan.seen.Keys)
    requires foreign == Ascending(scan.seen.Keys - Elements(expected))
    ensures InParts(Findings(scan, recorded, expected, digest), |scan.problems|, Take(missing, 20), Take(foreign, 20))
  {
    FourParts(scan.problems, Take(missing, 20), Take(foreign, 20),
              if recorded != digest(SortStrings(expected)) then [DifferentCensus] else []);
  }

  lemma FourParts(scanned: seq<Problem>, lost: seq<string>, found: seq<string>, last: seq<Problem>)
    requires forall q :: q in last ==> q == DifferentCensus
    ensures InParts(scanned + Missing(lost) + Invented(found) + last, |scanned|, lost, found)
  {
    assert forall k :: 0 <= k < |last| ==> last[k] in last;
  }

  /** After the first problems come the lost nodes, the found ones, and another census. */
  ghost predicate InParts(problems: seq<Problem>, scanned: int, lost: seq<string>, found: seq<string>) {
    && 0 <= scanned && scanned + |lost| + |found| <= |problems|
    && (forall i :: 0 <= i < |lost| ==> problems[scanned + i] == MissingFromEvery(lost[i]))
    && (forall i :: 0 <= i < |found| ==> problems[scanned + |lost| + i] == NotInCensus(found[i]))
    && (forall i :: scanned + |lost| + |found| <= i < |problems| ==> problems[i] == DifferentCensus)
  }

  /** And in which order: what the scan finds, then the missing nodes, then the foreign ones, then another census. */
  lemma {:induction false} ProblemsInOrder(slices: seq<Slice>, recorded: string, expected: seq<string>,
                                           digest: seq<string> -> string, missing: seq<string>, foreign: seq<string>)
    requires Beyond(missing, expected, Flat(slices, |slices|)) && Beyond(foreign, Flat(slices, |slices|), expected)
    ensures var listed := Flat(slices, |slices|);
      InParts(CheckOf(slices, recorded, expected, digest),
              |EmptyShards(slices, |slices|)| + |listed| - |Elements(listed)|,
              if |missing| <= 20 then missing else missing[..20], if |foreign| <= 20 then foreign else foreign[..20])
  {
    var scan := SeeShards(slices, |slices|);
    SeenAreListed(slices);
    ScanIsCounted(slices, |slices|);
    BeyondIs(missing, expected, Flat(slices, |slices|));
    BeyondIs(foreign, Flat(slices, |slices|), expected);
    FindingsInOrder(scan, recorded, expected, digest, missing, foreign);
    assert Findings(scan, recorded, expected, digest) == CheckOf(slices, recorded, expected, digest);
  }

  lemma SeenAreListed(slices: seq<Slice>)
    ensures SeeShards(slices, |slices|).seen.Keys == Elements(Flat(slices, |slices|))
  {
    SeeShardsMeaning(slices, |slices|);
  }
}
