/** The plan of a sharded run: one exclusive shard, and `m` ordinary shards cut file by file. */
module ShardPlan {
  import opened Wrappers
  import opened Order
  import opened Text
  import Packing

  /** A census record; `tiers` is what `tiers_of` says of it. */
  datatype Record = Record(id: string, tiers: seq<string>)

  datatype Shard = Shard(id: string, exclusive: bool, ids: seq<string>, weight: Option<real>, count: nat)

  datatype Plan = Plan(
    version: nat, censusDigest: string, censusCount: nat, ordinaryShards: nat,
    exclusiveFiles: map<string, string>, exclusiveReasons: map<string, string>, shards: seq<Shard>)

  datatype PlanError = NoOrdinaryShard | DuplicateNodeId

  /** The inputs besides the census: the shard count, the exclusive files, the timings and the digest. */
  datatype Inputs = Inputs(
    ordinaryShards: int, exclusive: map<string, string>, timings: map<string, real>, digest: seq<string> -> string)

  const PLAN_VERSION := 1
  const EXCLUSIVE := "exclusive"

  /** A node id up to the first `::`. */
  function FileOf(id: string): string {
    if id == [] || (|id| >= 2 && id[..2] == "::") then [] else [id[0]] + FileOf(id[1..])
  }

  function Ids(records: seq<Record>): (r: seq<string>)
    ensures |r| == |records| && forall i :: 0 <= i < |r| ==> r[i] == records[i].id
  {
    seq(|records|, i requires 0 <= i < |records| => records[i].id)
  }

  predicate IsExclusive(r: Record, exclusive: map<string, string>) {
    r.tiers != [] || FileOf(r.id) in exclusive
  }

  function ReasonOf(r: Record, exclusive: map<string, string>): string
    requires IsExclusive(r, exclusive)
  {
    if r.tiers != [] then "tier " + Join(r.tiers, "/")
    else "measured container user: " + exclusive[FileOf(r.id)]
  }

  /** What one pass over the census collects; `files` is the insertion order of `byFile`. */
  datatype Groups = Groups(
    exclusiveIds: seq<string>, files: seq<string>, byFile: map<string, seq<string>>, reasons: map<string, string>)

  function Place(g: Groups, r: Record, exclusive: map<string, string>): Groups {
    var path := FileOf(r.id);
    if IsExclusive(r, exclusive) then
      g.(exclusiveIds := g.exclusiveIds + [r.id], reasons := g.reasons[path := ReasonOf(r, exclusive)])
    else if path in g.byFile then
      g.(byFile := g.byFile[path := g.byFile[path] + [r.id]])
    else
      g.(files := g.files + [path], byFile := g.byFile[path := [r.id]])
  }

  function Grouping(records: seq<Record>, exclusive: map<string, string>, n: nat): Groups
    requires n <= |records|
  {
    if n == 0 then Groups([], [], map[], map[])
    else Place(Grouping(records, exclusive, n - 1), records[n - 1], exclusive)
  }

  function OrdinaryIds(records: seq<Record>, exclusive: map<string, string>, n: nat): set<string>
    requires n <= |records|
  {
    set i | 0 <= i < n && !IsExclusive(records[i], exclusive) :: records[i].id
  }

  function ExclusiveIds(records: seq<Record>, exclusive: map<string, string>, n: nat): set<string>
    requires n <= |records|
  {
    set i | 0 <= i < n && IsExclusive(records[i], exclusive) :: records[i].id
  }

  // ---------------------------------------------------------------- Weights and packing

  datatype Entry = Entry(path: string, weight: real)

  /** Heaviest first; of equal weights, by name. */
  predicate EntryLeq(a: Entry, b: Entry) {
    a.weight > b.weight || (a.weight == b.weight && StringLeq(a.path, b.path))
  }

  function Weight(path: string, members: seq<string>, timings: map<string, real>): real {
    if path in timings then timings[path] else 0.5 * |members| as real
  }

  function Entries(g: Groups, timings: map<string, real>): (r: seq<Entry>)
    requires forall f :: f in g.files ==> f in g.byFile
    ensures |r| == |g.files|
    ensures forall i :: 0 <= i < |r| ==>
      r[i] == Entry(g.files[i], Weight(g.files[i], g.byFile[g.files[i]], timings))
  {
    seq(|g.files|, i requires 0 <= i < |g.files| =>
      Entry(g.files[i], Weight(g.files[i], g.byFile[g.files[i]], timings)))
  }

  function WeightsOf(order: seq<Entry>): (w: seq<real>)
    ensures |w| == |order| && forall i :: 0 <= i < |w| ==> w[i] == order[i].weight
  {
    seq(|order|, i requires 0 <= i < |order| => order[i].weight)
  }

  /** The members of the first `n` files that assignment `a` gives to shard `b`, in the order they are added. */
  function Assigned(order: seq<Entry>, byFile: map<string, seq<string>>, a: seq<nat>, b: nat, n: nat): seq<string>
    requires n <= |order| && n <= |a|
    requires forall i :: 0 <= i < |order| ==> order[i].path in byFile
  {
    if n == 0 then []
    else
      var before := Assigned(order, byFile, a, b, n - 1);
      if a[n - 1] == b then before + byFile[order[n - 1].path] else before
  }

  function AllAssigned(order: seq<Entry>, byFile: map<string, seq<string>>, a: seq<nat>, m: nat, n: nat)
      : (r: seq<seq<string>>)
    requires n <= |order| && n <= |a|
    requires forall i :: 0 <= i < |order| ==> order[i].path in byFile
  {
    seq(m, (b: nat) => Assigned(order, byFile, a, b, n))
  }

  function Decimal(n: nat): string {
    if n < 10 then [('0' as int + n) as char] else Decimal(n / 10) + [('0' as int + n % 10) as char]
  }

  /** `k` tenths are nearest to `x`; of two nearest, `k` is the even one. */
  predicate NearestTenths(x: real, k: int) {
    var off := 10.0 * x - k as real;
    -0.5 < off < 0.5 || ((off == 0.5 || off == -0.5) && k % 2 == 0)
  }

  function RoundTenth(x: real): (r: real)
    ensures exists k: int :: NearestTenths(x, k) && r == k as real / 10.0
  {
    var floor := (10.0 * x).Floor;
    var part := 10.0 * x - floor as real;
    var tenths := if part < 0.5 || (part == 0.5 && floor % 2 == 0) then floor else floor + 1;
    assert NearestTenths(x, tenths);
    tenths as real / 10.0
  }

  function OrdinaryShard(b: nat, members: seq<string>, load: real): Shard {
    Shard("ordinary-" + Decimal(b + 1), false, SortStrings(members), Some(RoundTenth(load)), |members|)
  }

  function ShardsOf(g: Groups, order: seq<Entry>, a: seq<nat>, m: nat): (r: seq<Shard>)
    requires |a| == |order| && forall i :: 0 <= i < |order| ==> order[i].path in g.byFile
    ensures |r| == m + 1
  {
    var w := WeightsOf(order);
    [Shard(EXCLUSIVE, true, SortStrings(g.exclusiveIds), None, |g.exclusiveIds|)] +
    seq(m, (b: nat) => OrdinaryShard(b, Assigned(order, g.byFile, a, b, |order|), Packing.Load(w, a, b, |order|)))
  }

  lemma {:induction false} FilesAreGrouped(records: seq<Record>, exclusive: map<string, string>, n: nat)
    requires n <= |records|
    ensures var g := Grouping(records, exclusive, n);
      Distinct(g.files) && forall f :: f in g.files <==> f in g.byFile
  {
    if n > 0 {
      FilesAreGrouped(records, exclusive, n - 1);
    }
  }

  /** The files in the order in which they are packed. */
  function PackingOrder(records: seq<Record>, inputs: Inputs): (order: seq<Entry>)
    ensures forall i :: 0 <= i < |order| ==>
      order[i].path in Grouping(records, inputs.exclusive, |records|).byFile
  {
    var g := Grouping(records, inputs.exclusive, |records|);
    FilesAreGrouped(records, inputs.exclusive, |records|);
    var entries := Entries(g, inputs.timings);
    var order := SortBy(entries, EntryLeq);
    assert forall i :: 0 <= i < |order| ==> order[i].path in g.byFile by {
      forall i | 0 <= i < |order| ensures order[i].path in g.byFile {
        SortKeepsElements(entries, EntryLeq, order[i]);
      }
    }
    order
  }

  function PlanOf(records: seq<Record>, inputs: Inputs): Result<Plan, PlanError> {
    if inputs.ordinaryShards < 1 then Err(NoOrdinaryShard)
    else if !Distinct(Ids(records)) then Err(DuplicateNodeId)
    else
      var m: nat := inputs.ordinaryShards;
      var g := Grouping(records, inputs.exclusive, |records|);
      var order := PackingOrder(records, inputs);
      var a := Packing.Pack(WeightsOf(order), m, |order|);
      Ok(Plan(PLAN_VERSION, inputs.digest(SortStrings(Ids(records))), |records|, m,
              inputs.exclusive, g.reasons, ShardsOf(g, order, a, m)))
  }

  method Group(records: seq<Record>, exclusive: map<string, string>) returns (g: Groups)
    ensures g == Grouping(records, exclusive, |records|)
  {
    var exclusiveIds: seq<string> := [];
    var files: seq<string> := [];
    var byFile: map<string, seq<string>> := map[];
    var reasons: map<string, string> := map[];
    for n := 0 to |records|
      invariant Groups(exclusiveIds, files, byFile, reasons) == Grouping(records, exclusive, n)
    {
      var record := records[n];
      var path := FileOf(record.id);
      if record.tiers != [] || path in exclusive {
        exclusiveIds := exclusiveIds + [record.id];
        reasons := reasons[path := ReasonOf(record, exclusive)];
      } else {
        ghost var before := byFile;
        if path !in byFile {
          files := files + [path];
          byFile := byFile[path := []];
        }
        byFile := byFile[path := byFile[path] + [record.id]];
        assert path !in before ==> byFile[path] == [record.id] && byFile == before[path := [record.id]];
      }
    }
    g := Groups(exclusiveIds, files, byFile, reasons);
  }

  /** The loads and the members of every shard after the first `n` files of assignment `a`. */
  ghost predicate Placed(order: seq<Entry>, byFile: map<string, seq<string>>, a: seq<nat>, n: nat,
                         loads: seq<real>, packed: seq<seq<string>>)
    requires n <= |order| && n <= |a| && forall i :: 0 <= i < |order| ==> order[i].path in byFile
  {
    && |packed| == |loads|
    && loads == Packing.Loads(WeightsOf(order), a, |loads|, n)
    && packed == AllAssigned(order, byFile, a, |loads|, n)
  }

  /** The packing loop: `loads` and `packed` are filled in place, one file at a time. */
  method PackFiles(order: seq<Entry>, byFile: map<string, seq<string>>, m: nat)
      returns (packed: array<seq<string>>, loads: array<real>)
    requires m >= 1 && forall i :: 0 <= i < |order| ==> order[i].path in byFile
    ensures fresh(packed) && fresh(loads) && packed.Length == loads.Length == m
    ensures var a := Packing.Pack(WeightsOf(order), m, |order|);
      && packed[..] == AllAssigned(order, byFile, a, m, |order|)
      && loads[..] == Packing.Loads(WeightsOf(order), a, m, |order|)
  {
    ghost var a := Packing.Pack(WeightsOf(order), m, |order|);
    loads := new real[m](_ => 0.0);
    packed := new seq<string>[m](_ => []);
    NothingPlaced(order, byFile, a, loads[..], packed[..]);
    for n := 0 to |order|
      invariant Placed(order, byFile, a, n, loads[..], packed[..])
    {
      var target := Packing.LeastLoaded(loads[..]);
      ghost var held, had := packed[..], loads[..];
      TargetIs(order, byFile, m, n, had, held);
      PutFile(packed, loads, target, byFile[order[n].path], order[n].weight);
      PackingStep(order, byFile, a, n, had, held, loads[..], packed[..]);
    }
  }

  method PutFile(packed: array<seq<string>>, loads: array<real>, target: nat, ids: seq<string>, weight: real)
    requires packed.Length == loads.Length && target < loads.Length
    modifies packed, loads
    ensures packed[..] == old(packed[..])[target := old(packed[target]) + ids]
    ensures loads[..] == old(loads[..])[target := old(loads[target]) + weight]
  {
    packed[target] := packed[target] + ids;
    loads[target] := loads[target] + weight;
  }

  lemma NothingPlaced(order: seq<Entry>, byFile: map<string, seq<string>>, a: seq<nat>,
                      loads: seq<real>, packed: seq<seq<string>>)
    requires forall i :: 0 <= i < |order| ==> order[i].path in byFile
    requires |loads| == |packed| && forall b :: 0 <= b < |loads| ==> loads[b] == 0.0 && packed[b] == []
    ensures Placed(order, byFile, a, 0, loads, packed)
  {}

  lemma TargetIs(order: seq<Entry>, byFile: map<string, seq<string>>, m: nat, n: nat,
                 loads: seq<real>, packed: seq<seq<string>>)
    requires m >= 1 && n < |order| && forall i :: 0 <= i < |order| ==> order[i].path in byFile
    requires |loads| == m && Placed(order, byFile, Packing.Pack(WeightsOf(order), m, |order|), n, loads, packed)
    ensures Packing.LeastLoaded(loads) == Packing.Pack(WeightsOf(order), m, |order|)[n]
  {
    Packing.PackChoice(WeightsOf(order), m, n);
  }

  lemma MembersStep(order: seq<Entry>, byFile: map<string, seq<string>>, a: seq<nat>, m: nat, n: nat)
    requires n < |order| && n < |a| && a[n] < m && forall i :: 0 <= i < |order| ==> order[i].path in byFile
    ensures var members := AllAssigned(order, byFile, a, m, n);
      AllAssigned(order, byFile, a, m, n + 1) == members[a[n] := members[a[n]] + byFile[order[n].path]]
  {}

  lemma PackingStep(order: seq<Entry>, byFile: map<string, seq<string>>, a: seq<nat>, n: nat,
                    loads: seq<real>, packed: seq<seq<string>>, loads': seq<real>, packed': seq<seq<string>>)
    requires n < |order| && n < |a| && forall i :: 0 <= i < |order| ==> order[i].path in byFile
    requires Placed(order, byFile, a, n, loads, packed) && a[n] < |loads|
    requires loads' == loads[a[n] := loads[a[n]] + order[n].weight]
    requires packed' == packed[a[n] := packed[a[n]] + byFile[order[n].path]]
    ensures Placed(order, byFile, a, n + 1, loads', packed')
  {
    Packing.LoadsStep(WeightsOf(order), a, |loads|, n);
    MembersStep(order, byFile, a, |loads|, n);
  }

  method MakePlan(records: seq<Record>, inputs: Inputs) returns (r: Result<Plan, PlanError>)
    ensures r == PlanOf(records, inputs)
  {
    if inputs.ordinaryShards < 1 {
      return Err(NoOrdinaryShard);
    }
    var m: nat := inputs.ordinaryShards;
    var ids := Ids(records);
    DistinctIffNoCollapse(ids);
    if |ids| != |set x | x in ids| {
      return Err(DuplicateNodeId);
    }
    var g := Group(records, inputs.exclusive);
    FilesAreGrouped(records, inputs.exclusive, |records|);
    var order := SortBy(Entries(g, inputs.timings), EntryLeq);
    assert order == PackingOrder(records, inputs);
    var packed, loads := PackFiles(order, g.byFile, m);
    var shards := ListShards(g, order, packed, loads);
    return Ok(Plan(PLAN_VERSION, inputs.digest(SortStrings(ids)), |ids|, m, inputs.exclusive, g.reasons, shards));
  }

  method ListShards(g: Groups, ghost order: seq<Entry>, packed: array<seq<string>>, loads: array<real>)
      returns (shards: seq<Shard>)
    requires packed.Length == loads.Length >= 1 && forall i :: 0 <= i < |order| ==> order[i].path in g.byFile
    requires var a := Packing.Pack(WeightsOf(order), packed.Length, |order|);
      && packed[..] == AllAssigned(order, g.byFile, a, packed.Length, |order|)
      && loads[..] == Packing.Loads(WeightsOf(order), a, packed.Length, |order|)
    ensures shards == ShardsOf(g, order, Packing.Pack(WeightsOf(order), packed.Length, |order|), packed.Length)
  {
    ghost var a := Packing.Pack(WeightsOf(order), packed.Length, |order|);
    shards := [Shard(EXCLUSIVE, true, SortStrings(g.exclusiveIds), None, |g.exclusiveIds|)];
    for b := 0 to packed.Length
      invariant shards == ShardsOf(g, order, a, b)
    {
      assert packed[b] == packed[..][b] && loads[b] == loads[..][b];
      shards := shards + [OrdinaryShard(b, packed[b], loads[b])];
    }
  }
}
