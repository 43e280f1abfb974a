/** A plan in plain terms: what its fields and its shards say, in terms of the census and the inputs alone. */
module PlanMeaning {
  import opened Wrappers
  import opened Order
  import opened Text
  import opened ShardPlan
  import opened PlanTheorems
  import opened PlanGuarantees
  import Packing

  // ---------------------------------------------------------------- Files, and when there is no plan

  lemma TwoColons(id: string)
    requires |id| >= 2
    ensures id[..2] == "::" <==> id[0] == ':' && id[1] == ':'
  {
    assert id[0] == id[..2][0] && id[1] == id[..2][1];
  }

  /** The file of a node is its id up to the first double colon, or all of it. */
  lemma {:induction false} FileOfIs(id: string)
    ensures var n := |FileOf(id)|;
      && n <= |id| && FileOf(id) == id[..n]
      && (n == |id| || (n + 2 <= |id| && id[n] == ':' && id[n + 1] == ':'))
      && forall i :: 0 <= i < n && i + 1 < |id| ==> !(id[i] == ':' && id[i + 1] == ':')
  {
    if |id| >= 2 { TwoColons(id); }
    if id != [] && !(|id| >= 2 && id[..2] == "::") {
      FileOfIs(id[1..]);
      var n := |FileOf(id[1..])|;
      assert id[..n + 1] == [id[0]] + id[1..][..n];
      forall i | 0 <= i < n + 1 && i + 1 < |id| ensures !(id[i] == ':' && id[i + 1] == ':') {
        if i > 0 { assert id[i] == id[1..][i - 1] && id[i + 1] == id[1..][i]; }
      }
    }
  }

  /** There is no plan for less than one ordinary shard, and none for a census that lists an id twice. */
  lemma PlanRejects(records: seq<Record>, inputs: Inputs)
    ensures PlanOf(records, inputs) == Err(NoOrdinaryShard) <==> inputs.ordinaryShards < 1
    ensures PlanOf(records, inputs) == Err(DuplicateNodeId) <==>
            inputs.ordinaryShards >= 1 && exists i, j :: 0 <= i < j < |records| && records[i].id == records[j].id
  {
    if !Distinct(Ids(records)) {
      var i, j :| 0 <= i < j < |records| && Ids(records)[i] == Ids(records)[j];
      assert records[i].id == records[j].id;
    }
    if i, j :| 0 <= i < j < |records| && records[i].id == records[j].id {
      assert Ids(records)[i] == Ids(records)[j];
    }
  }

  // ---------------------------------------------------------------- The fields of a plan

  /** The number that a string of decimal digits writes. */
  function ValueOf(digits: string): int {
    if digits == [] then 0 else 10 * ValueOf(digits[..|digits| - 1]) + (digits[|digits| - 1] as int - 48)
  }

  lemma {:induction false} DecimalIs(n: nat)
    ensures ValueOf(Decimal(n)) == n && Decimal(n) != [] && (n > 0 ==> Decimal(n)[0] != '0')
    ensures forall i :: 0 <= i < |Decimal(n)| ==> '0' <= Decimal(n)[i] <= '9'
  {
    var s := Decimal(n);
    if n >= 10 {
      DecimalIs(n / 10);
      assert s[..|s| - 1] == Decimal(n / 10);
    } else {
      assert s[..0] == [];
    }
  }

  /** What a plan says of itself: its version, its census and its inputs. */
  lemma PlanFields(records: seq<Record>, inputs: Inputs, p: Plan)
    requires PlanOf(records, inputs) == Ok(p)
    ensures p.version == 1 && p.censusCount == |records| && p.ordinaryShards == inputs.ordinaryShards
    ensures p.exclusiveFiles == inputs.exclusive
    ensures exists ids :: p.censusDigest == inputs.digest(ids) && Sorted(ids, StringLeq)
                          && multiset(ids) == multiset(Ids(records))
  {
    StringOrder();
    SortIsSorted(Ids(records), StringLeq);
    SortPermutes(Ids(records), StringLeq);
    assert p.censusDigest == inputs.digest(SortStrings(Ids(records)));
  }

  /** What a shard says of itself: the exclusive one comes first, the others are numbered from 1; its ids are sorted
      and counted. */
  lemma ShardFields(records: seq<Record>, inputs: Inputs, p: Plan, k: nat)
    requires PlanOf(records, inputs) == Ok(p) && k < |p.shards|
    ensures |p.shards| == inputs.ordinaryShards + 1
    ensures var shard := p.shards[k];
      && shard.count == |shard.ids| && Sorted(shard.ids, StringLeq)
      && (shard.exclusive <==> k == 0) && (shard.weight == None <==> k == 0)
      && (k == 0 ==> shard.id == "exclusive")
      && (k > 0 ==> exists d :: shard.id == "ordinary-" + d && ValueOf(d) == k && d != [] && d[0] != '0'
                                && forall i :: 0 <= i < |d| ==> '0' <= d[i] <= '9')
  {
    ShardNumber(records, inputs, p);
    ShardIsSorted(records, inputs, p, k);
    ShardIsNamed(records, inputs, p, k);
    if k > 0 { DecimalIs(k); }
  }

  lemma ShardIsNamed(records: seq<Record>, inputs: Inputs, p: Plan, k: nat)
    requires PlanOf(records, inputs) == Ok(p) && k < |p.shards|
    ensures (p.shards[k].exclusive <==> k == 0) && (p.shards[k].weight == None <==> k == 0)
    ensures p.shards[k].id == if k == 0 then "exclusive" else "ordinary-" + Decimal(k)
  {}

  lemma ShardIsSorted(records: seq<Record>, inputs: Inputs, p: Plan, k: nat)
    requires PlanOf(records, inputs) == Ok(p) && k < |p.shards|
    ensures p.shards[k].count == |p.shards[k].ids| && Sorted(p.shards[k].ids, StringLeq)
  {
    StringOrder();
    var g := Grouping(records, inputs.exclusive, |records|);
    if k == 0 {
      SortIsSorted(g.exclusiveIds, StringLeq);
    } else {
      var order := PackingOrder(records, inputs);
      var members := Assigned(order, g.byFile, Packing.Pack(WeightsOf(order), inputs.ordinaryShards, |order|), k - 1,
                              |order|);
      SortIsSorted(members, StringLeq);
    }
  }

  /** No two shards have one id. */
  lemma ShardIdsDiffer(records: seq<Record>, inputs: Inputs, p: Plan, j: nat, k: nat)
    requires PlanOf(records, inputs) == Ok(p) && j < k < |p.shards|
    ensures p.shards[j].id != p.shards[k].id
  {
    ShardFields(records, inputs, p, j);
    ShardFields(records, inputs, p, k);
    assert p.shards[k].id[0] == 'o';
    if j > 0 {
      var c :| p.shards[j].id == "ordinary-" + c && ValueOf(c) == j;
      var d :| p.shards[k].id == "ordinary-" + d && ValueOf(d) == k;
      assert ("ordinary-" + c)[9..] == c && ("ordinary-" + d)[9..] == d;
    }
  }

  // ---------------------------------------------------------------- Reasons

  /** The node has a tier, or its file is one of the exclusive files. */
  ghost predicate SetApart(r: Record, inputs: Inputs) {
    r.tiers != [] || FileOf(r.id) in inputs.exclusive
  }

  ghost function ReasonText(r: Record, inputs: Inputs): string
    requires SetApart(r, inputs)
  {
    if r.tiers != [] then "tier " + Join(r.tiers, "/")
    else "measured container user: " + inputs.exclusive[FileOf(r.id)]
  }

  lemma PlacedReason(g: Groups, r: Record, inputs: Inputs, file: string)
    ensures var reasons := Place(g, r, inputs.exclusive).reasons;
      if SetApart(r, inputs) && FileOf(r.id) == file then file in reasons && reasons[file] == ReasonText(r, inputs)
      else (file in reasons <==> file in g.reasons) && (file in reasons ==> reasons[file] == g.reasons[file])
  {}

  lemma {:induction false} LastReason(records: seq<Record>, inputs: Inputs, n: nat, i: nat)
    requires i < n <= |records| && SetApart(records[i], inputs)
    requires forall j :: i < j < n && SetApart(records[j], inputs) ==> FileOf(records[j].id) != FileOf(records[i].id)
    ensures var reasons, file := Grouping(records, inputs.exclusive, n).reasons, FileOf(records[i].id);
      file in reasons && reasons[file] == ReasonText(records[i], inputs)
  {
    PlacedReason(Grouping(records, inputs.exclusive, n - 1), records[n - 1], inputs, FileOf(records[i].id));
    if i < n - 1 { LastReason(records, inputs, n - 1, i); }
  }

  lemma {:induction false} ReasonHasRecord(records: seq<Record>, inputs: Inputs, n: nat, file: string) returns (i: nat)
    requires n <= |records| && file in Grouping(records, inputs.exclusive, n).reasons
    ensures i < n && SetApart(records[i], inputs) && FileOf(records[i].id) == file
  {
    i := n - 1;
    if !(SetApart(records[i], inputs) && FileOf(records[i].id) == file) {
      i := ReasonHasRecord(records, inputs, n - 1, file);
    }
  }

  /** Record `i` is the last one set apart among those of `file`. */
  ghost predicate LastOf(records: seq<Record>, inputs: Inputs, i: nat, file: string) {
    && i < |records| && SetApart(records[i], inputs) && FileOf(records[i].id) == file
    && forall j :: i < j < |records| && SetApart(records[j], inputs) ==> FileOf(records[j].id) != file
  }

  /** A plan gives a reason for exactly the files of the nodes set apart: that of the last such node in the census. */
  lemma ReasonsAre(records: seq<Record>, inputs: Inputs, p: Plan, file: string)
    requires PlanOf(records, inputs) == Ok(p)
    ensures file in p.exclusiveReasons <==>
            exists i :: 0 <= i < |records| && SetApart(records[i], inputs) && FileOf(records[i].id) == file
    ensures forall i: nat :: LastOf(records, inputs, i, file) ==>
      file in p.exclusiveReasons && p.exclusiveReasons[file] == ReasonText(records[i], inputs)
  {
    if file in p.exclusiveReasons {
      var i := ReasonHasRecord(records, inputs, |records|, file);
    }
    if i :| 0 <= i < |records| && SetApart(records[i], inputs) && FileOf(records[i].id) == file {
      var last := LastSetApart(records, inputs, |records|, i);
      LastReason(records, inputs, |records|, last);
    }
    forall i: nat | LastOf(records, inputs, i, file)
      ensures file in p.exclusiveReasons
      ensures p.exclusiveReasons[file] == ReasonText(records[i], inputs)
    {
      LastReason(records, inputs, |records|, i);
    }
  }

  lemma {:induction false} LastSetApart(records: seq<Record>, inputs: Inputs, n: nat, i: nat) returns (last: nat)
    requires i < n <= |records| && SetApart(records[i], inputs)
    ensures i <= last < n && SetApart(records[last], inputs) && FileOf(records[last].id) == FileOf(records[i].id)
    ensures forall j :: last < j < n && SetApart(records[j], inputs) ==> FileOf(records[j].id) != FileOf(records[i].id)
  {
    if i == n - 1 || (SetApart(records[n - 1], inputs) && FileOf(records[n - 1].id) == FileOf(records[i].id)) {
      last := n - 1;
    } else {
      last := LastSetApart(records, inputs, n - 1, i);
    }
  }

  // ---------------------------------------------------------------- What a shard weighs

  /** The number of ids of `file`. */
  function IdsIn(ids: seq<string>, file: string): nat {
    |set id | id in ids && FileOf(id) == file|
  }

  /** The measured seconds of the files, or half a second for every one of `ids` in a file without a measurement. */
  function Seconds(files: seq<string>, ids: seq<string>, timings: map<string, real>): real {
    if files == [] then 0.0
    else
      (if files[0] in timings then timings[files[0]] else 0.5 * IdsIn(ids, files[0]) as real)
      + Seconds(files[1..], ids, timings)
  }

  lemma {:induction false} SecondsInsert(front: seq<string>, f: string, back: seq<string>, ids: seq<string>,
                                         timings: map<string, real>)
    ensures Seconds(front + [f] + back, ids, timings)
         == Seconds([f], ids, timings) + Seconds(front + back, ids, timings)
  {
    if front == [] {
      assert [] + [f] + back == [f] + back && ([f] + back)[1..] == back && [] + back == back;
    } else {
      SecondsInsert(front[1..], f, back, ids, timings);
      assert (front + [f] + back)[1..] == front[1..] + [f] + back && (front + back)[1..] == front[1..] + back;
    }
  }

  lemma {:induction false} SecondsPermute(a: seq<string>, b: seq<string>, ids: seq<string>, timings: map<string, real>)
    requires multiset(a) == multiset(b)
    ensures Seconds(a, ids, timings) == Seconds(b, ids, timings)
  {
    if a == [] {
      assert |b| == |multiset(b)| == 0;
    } else {
      var front, back := FirstIn(a, b);
      SecondsPermute(a[1..], front + back, ids, timings);
      SecondsInsert(front, a[0], back, ids, timings);
      assert [a[0]][1..] == [];
    }
  }

  /** The files that assignment `a` gives to shard `b`, among the first `n`. */
  function FilesGiven(order: seq<Entry>, a: seq<nat>, b: nat, n: nat): seq<string>
    requires n <= |order| && n <= |a|
  {
    if n == 0 then []
    else if a[n - 1] == b then FilesGiven(order, a, b, n - 1) + [order[n - 1].path]
    else FilesGiven(order, a, b, n - 1)
  }

  lemma {:induction false} GivenElements(order: seq<Entry>, a: seq<nat>, b: nat, n: nat, f: string)
    requires n <= |order| && n <= |a|
    ensures f in FilesGiven(order, a, b, n) <==> exists j :: 0 <= j < n && a[j] == b && order[j].path == f
  {
    if n > 0 { GivenElements(order, a, b, n - 1, f); }
  }

  lemma {:induction false} GivenDistinct(order: seq<Entry>, a: seq<nat>, b: nat, n: nat)
    requires n <= |order| && n <= |a| && DistinctPaths(order)
    ensures Distinct(FilesGiven(order, a, b, n))
  {
    if n > 0 {
      GivenDistinct(order, a, b, n - 1);
      GivenElements(order, a, b, n - 1, order[n - 1].path);
      DistinctSnoc(FilesGiven(order, a, b, n - 1), order[n - 1].path);
    }
  }

  /** The weight of a file given to a shard, from the ids of the shard. */
  ghost predicate WeighsAsListed(e: Entry, ids: seq<string>, timings: map<string, real>) {
    e.weight == if e.path in timings then timings[e.path] else 0.5 * IdsIn(ids, e.path) as real
  }

  lemma {:induction false} LoadIsSeconds(order: seq<Entry>, a: seq<nat>, b: nat, n: nat, ids: seq<string>,
                                         timings: map<string, real>)
    requires n <= |order| && n <= |a|
    requires forall j :: 0 <= j < n && a[j] == b ==> WeighsAsListed(order[j], ids, timings)
    ensures Packing.Load(WeightsOf(order), a, b, n) == Seconds(FilesGiven(order, a, b, n), ids, timings)
  {
    if n > 0 {
      LoadIsSeconds(order, a, b, n - 1, ids, timings);
      var f, before := order[n - 1].path, FilesGiven(order, a, b, n - 1);
      SecondsInsert(before, f, [], ids, timings);
      assert before + [f] + [] == before + [f] && before + [] == before && [f][1..] == [];
    }
  }

  /** The ids of one file in its shard are the members of the file. */
  lemma MembersAreIds(records: seq<Record>, inputs: Inputs, p: Plan, b: nat, j: nat)
    requires PlanOf(records, inputs) == Ok(p) && b < inputs.ordinaryShards && j < |PackingOrder(records, inputs)|
    requires var order := PackingOrder(records, inputs);
      Packing.Pack(WeightsOf(order), inputs.ordinaryShards, |order|)[j] == b
    ensures b + 1 < |p.shards|
    ensures var file := PackingOrder(records, inputs)[j].path;
      var members := Grouping(records, inputs.exclusive, |records|).byFile[file];
      && members != [] && IdsIn(p.shards[b + 1].ids, file) == |members|
      && forall id :: id in members ==> id in p.shards[b + 1].ids && FileOf(id) == file
  {
    ShardCount(records, inputs, p);
    var file := PackingOrder(records, inputs)[j].path;
    var members := Grouping(records, inputs.exclusive, |records|).byFile[file];
    var ids := p.shards[b + 1].ids;
    GroupingIsExact(records, inputs.exclusive, |records|);
    OrdinaryShardContents(records, inputs, p, b);
    assert PlaceOf(records, inputs, file) == j;
    forall id ensures id in members <==> id in ids && FileOf(id) == file {
      if id in members { assert InOrdinaryShard(records, inputs, b, id); }
      if id in ids && FileOf(id) == file { assert InOrdinaryShard(records, inputs, b, id); }
    }
    assert (set id | id in ids && FileOf(id) == file) == set id | id in members;
    DistinctIffNoCollapse(members);
  }

  lemma GivenFilesWeigh(records: seq<Record>, inputs: Inputs, p: Plan, b: nat, j: nat)
    requires PlanOf(records, inputs) == Ok(p) && b < inputs.ordinaryShards && j < |PackingOrder(records, inputs)|
    requires var order := PackingOrder(records, inputs);
      Packing.Pack(WeightsOf(order), inputs.ordinaryShards, |order|)[j] == b
    ensures b + 1 < |p.shards|
    ensures WeighsAsListed(PackingOrder(records, inputs)[j], p.shards[b + 1].ids, inputs.timings)
  {
    MembersAreIds(records, inputs, p, b, j);
    PackingOrderIsComplete(records, inputs);
    assert PackingOrder(records, inputs)[j] in PackingOrder(records, inputs);
  }

  /** One of the ids is in the file. */
  ghost predicate HasFile(ids: seq<string>, file: string) {
    exists id :: id in ids && FileOf(id) == file
  }

  /** Assignment `a` gives the file to shard `b`. */
  ghost predicate GivenTo(order: seq<Entry>, a: seq<nat>, b: nat, file: string)
    requires |a| == |order|
  {
    exists j :: 0 <= j < |order| && a[j] == b && order[j].path == file
  }

  lemma GivenFileIsListed(records: seq<Record>, inputs: Inputs, p: Plan, b: nat, j: nat)
    requires PlanOf(records, inputs) == Ok(p) && b < inputs.ordinaryShards && j < |PackingOrder(records, inputs)|
    requires var order := PackingOrder(records, inputs);
      Packing.Pack(WeightsOf(order), inputs.ordinaryShards, |order|)[j] == b
    ensures b + 1 < |p.shards| && HasFile(p.shards[b + 1].ids, PackingOrder(records, inputs)[j].path)
  {
    MembersAreIds(records, inputs, p, b, j);
    var members := Grouping(records, inputs.exclusive, |records|).byFile[PackingOrder(records, inputs)[j].path];
    assert members[0] in members;
  }

  lemma ListedFileIsGiven(records: seq<Record>, inputs: Inputs, p: Plan, b: nat, id: string)
    requires PlanOf(records, inputs) == Ok(p) && b < inputs.ordinaryShards
    requires b + 1 < |p.shards| && id in p.shards[b + 1].ids
    ensures var order := PackingOrder(records, inputs);
      GivenTo(order, Packing.Pack(WeightsOf(order), inputs.ordinaryShards, |order|), b, FileOf(id))
  {
    OrdinaryShardContents(records, inputs, p, b);
    assert InOrdinaryShard(records, inputs, b, id);
    var j := PlaceOf(records, inputs, FileOf(id));
  }

  /** What the ids of a shard and the files given to it have to do with each other. */
  ghost predicate ListsGiven(order: seq<Entry>, a: seq<nat>, b: nat, ids: seq<string>, timings: map<string, real>) {
    && |a| == |order|
    && (forall j :: 0 <= j < |order| && a[j] == b ==>
          WeighsAsListed(order[j], ids, timings) && HasFile(ids, order[j].path))
    && (forall id :: id in ids ==> GivenTo(order, a, b, FileOf(id)))
  }

  lemma ShardListsGiven(records: seq<Record>, inputs: Inputs, p: Plan, b: nat)
    requires PlanOf(records, inputs) == Ok(p) && b < inputs.ordinaryShards && b + 1 < |p.shards|
    ensures var order := PackingOrder(records, inputs);
      ListsGiven(order, Packing.Pack(WeightsOf(order), inputs.ordinaryShards, |order|), b, p.shards[b + 1].ids,
                 inputs.timings)
  {
    var order := PackingOrder(records, inputs);
    var a := Packing.Pack(WeightsOf(order), inputs.ordinaryShards, |order|);
    forall j | 0 <= j < |order| && a[j] == b
      ensures WeighsAsListed(order[j], p.shards[b + 1].ids, inputs.timings)
      ensures HasFile(p.shards[b + 1].ids, order[j].path)
    {
      GivenFilesWeigh(records, inputs, p, b, j);
      GivenFileIsListed(records, inputs, p, b, j);
    }
    forall id | id in p.shards[b + 1].ids ensures GivenTo(order, a, b, FileOf(id)) {
      ListedFileIsGiven(records, inputs, p, b, id);
    }
  }

  lemma GivenIffListed(order: seq<Entry>, a: seq<nat>, b: nat, ids: seq<string>, timings: map<string, real>, f: string)
    requires ListsGiven(order, a, b, ids, timings)
    ensures GivenTo(order, a, b, f) <==> HasFile(ids, f)
  {
    if HasFile(ids, f) {
      var id :| id in ids && FileOf(id) == f;
      assert GivenTo(order, a, b, FileOf(id));
    }
  }

  lemma LoadOfListed(order: seq<Entry>, a: seq<nat>, b: nat, ids: seq<string>, timings: map<string, real>,
                     files: seq<string>)
    requires DistinctPaths(order) && ListsGiven(order, a, b, ids, timings)
    requires Distinct(files) && forall f :: f in files <==> HasFile(ids, f)
    ensures Packing.Load(WeightsOf(order), a, b, |order|) == Seconds(files, ids, timings)
  {
    var given := FilesGiven(order, a, b, |order|);
    LoadIsSeconds(order, a, b, |order|, ids, timings);
    GivenDistinct(order, a, b, |order|);
    forall f ensures f in given <==> f in files {
      GivenElements(order, a, b, |order|, f);
      GivenIffListed(order, a, b, ids, timings, f);
    }
    DistinctSameElements(given, files);
    SecondsPermute(given, files, ids, timings);
  }

  lemma ShardLoadIsSeconds(records: seq<Record>, inputs: Inputs, p: Plan, b: nat, files: seq<string>)
    requires PlanOf(records, inputs) == Ok(p) && b < inputs.ordinaryShards && b + 1 < |p.shards|
    requires Distinct(files) && forall f :: f in files <==> HasFile(p.shards[b + 1].ids, f)
    ensures ShardLoad(records, inputs, b) == Seconds(files, p.shards[b + 1].ids, inputs.timings)
  {
    var order := PackingOrder(records, inputs);
    var a := Packing.Pack(WeightsOf(order), inputs.ordinaryShards, |order|);
    ShardListsGiven(records, inputs, p, b);
    assert DistinctPaths(order) by { PackingOrderIsComplete(records, inputs); }
    LoadOfListed(order, a, b, p.shards[b + 1].ids, inputs.timings, files);
  }

  lemma RoundedTo(x: real) returns (tenths: int)
    ensures NearestTenths(x, tenths) && RoundTenth(x) == tenths as real / 10.0
  {
    var r := RoundTenth(x);
    tenths :| NearestTenths(x, tenths) && r == tenths as real / 10.0;
  }

  /**
   * The number that an ordinary shard shows: the measured seconds of the files of its ids, or half a second for every
   * id of a file without a measurement, added up in any order and rounded to a tenth.
   */
  lemma ShardShowsItsSeconds(records: seq<Record>, inputs: Inputs, p: Plan, b: nat, files: seq<string>)
    returns (tenths: int)
    requires PlanOf(records, inputs) == Ok(p) && b < inputs.ordinaryShards && b + 1 < |p.shards|
    requires Distinct(files) && forall f :: f in files <==> HasFile(p.shards[b + 1].ids, f)
    ensures p.shards[b + 1].weight == Some(tenths as real / 10.0)
    ensures NearestTenths(Seconds(files, p.shards[b + 1].ids, inputs.timings), tenths)
  {
    ShardLoadIsSeconds(records, inputs, p, b, files);
    ShardWeight(records, inputs, p, b);
    tenths := RoundedTo(ShardLoad(records, inputs, b));
  }

  // ---------------------------------------------------------------- Longest first

  /** The ids of the nodes of a file that are not set apart. */
  ghost function OrdinaryIn(records: seq<Record>, inputs: Inputs, file: string): set<string> {
    set r | r in records && !SetApart(r, inputs) && FileOf(r.id) == file :: r.id
  }

  /** The measured seconds of a file, or half a second for each of its ordinary nodes. */
  ghost function SecondsOf(records: seq<Record>, inputs: Inputs, file: string): real {
    if file in inputs.timings then inputs.timings[file] else 0.5 * |OrdinaryIn(records, inputs, file)| as real
  }

  /** Longer first; of equally long files, by name. */
  ghost predicate GoesFirst(records: seq<Record>, inputs: Inputs, a: string, b: string) {
    var x, y := SecondsOf(records, inputs, a), SecondsOf(records, inputs, b);
    x > y || (x == y && StringLeq(a, b))
  }

  /** All files with an ordinary node, each once, longest first. */
  ghost predicate LongestFirst(records: seq<Record>, inputs: Inputs, files: seq<string>) {
    && Distinct(files)
    && (forall f :: f in files <==> OrdinaryIn(records, inputs, f) != {})
    && forall i, j :: 0 <= i < j < |files| ==> GoesFirst(records, inputs, files[i], files[j])
  }

  lemma GroupIsOrdinary(records: seq<Record>, inputs: Inputs, file: string)
    requires Distinct(Ids(records))
    ensures var byFile := Grouping(records, inputs.exclusive, |records|).byFile;
      && (file in byFile <==> OrdinaryIn(records, inputs, file) != {})
      && (file in byFile ==> |byFile[file]| == |OrdinaryIn(records, inputs, file)|
                             && forall id :: id in byFile[file] <==> id in OrdinaryIn(records, inputs, file))
  {
    var byFile, ordinary := Grouping(records, inputs.exclusive, |records|).byFile,
      OrdinaryIds(records, inputs.exclusive, |records|);
    GroupingIsExact(records, inputs.exclusive, |records|);
    forall id ensures id in OrdinaryIn(records, inputs, file) <==> id in ordinary && FileOf(id) == file {
      if id in ordinary && FileOf(id) == file {
        var i :| 0 <= i < |records| && !IsExclusive(records[i], inputs.exclusive) && records[i].id == id;
        assert records[i] in records;
      }
      if id in OrdinaryIn(records, inputs, file) {
        var r :| r in records && !SetApart(r, inputs) && FileOf(r.id) == file && r.id == id;
        var i :| 0 <= i < |records| && records[i] == r;
      }
    }
    if file in byFile {
      var members := byFile[file];
      assert members[0] in members;
      assert (set id | id in members) == OrdinaryIn(records, inputs, file);
      DistinctIffNoCollapse(members);
    }
  }

  /** The paths of the packing order. */
  function Paths(order: seq<Entry>): (r: seq<string>)
    ensures |r| == |order| && forall i :: 0 <= i < |r| ==> r[i] == order[i].path
  {
    seq(|order|, i requires 0 <= i < |order| => order[i].path)
  }

  lemma OrderWeighs(records: seq<Record>, inputs: Inputs, i: nat)
    requires Distinct(Ids(records)) && i < |PackingOrder(records, inputs)|
    ensures PackingOrder(records, inputs)[i].weight
         == SecondsOf(records, inputs, PackingOrder(records, inputs)[i].path)
  {
    var e := PackingOrder(records, inputs)[i];
    PackingOrderIsComplete(records, inputs);
    assert e in PackingOrder(records, inputs);
    GroupIsOrdinary(records, inputs, e.path);
  }

  lemma FileIsPacked(records: seq<Record>, inputs: Inputs, f: string)
    requires Distinct(Ids(records))
    ensures f in Paths(PackingOrder(records, inputs)) <==> OrdinaryIn(records, inputs, f) != {}
  {
    var order := PackingOrder(records, inputs);
    PackingOrderIsComplete(records, inputs);
    GroupIsOrdinary(records, inputs, f);
    if f in Paths(order) {
      var i :| 0 <= i < |order| && Paths(order)[i] == f;
      assert order[i] in order;
    }
    if OrdinaryIn(records, inputs, f) != {} {
      var j := PlaceOf(records, inputs, f);
      assert Paths(order)[j] == f;
    }
  }

  lemma OrderIsLongestFirst(records: seq<Record>, inputs: Inputs)
    requires Distinct(Ids(records))
    ensures LongestFirst(records, inputs, Paths(PackingOrder(records, inputs)))
  {
    var order := PackingOrder(records, inputs);
    var paths, w := Paths(order), WeightsOf(order);
    PackingOrderIsComplete(records, inputs);
    forall f ensures f in paths <==> OrdinaryIn(records, inputs, f) != {} { FileIsPacked(records, inputs, f); }
    forall i, j | 0 <= i < j < |paths| ensures GoesFirst(records, inputs, paths[i], paths[j]) {
      OrderWeighs(records, inputs, i);
      OrderWeighs(records, inputs, j);
      assert w[i] >= w[j];
    }
  }

  /** There is one such list. */
  lemma LongestFirstIsUnique(records: seq<Record>, inputs: Inputs, a: seq<string>, b: seq<string>)
    requires LongestFirst(records, inputs, a) && LongestFirst(records, inputs, b)
    ensures a == b
  {
    ghost var leq := (x: string, y: string) => GoesFirst(records, inputs, x, y);
    StringOrder();
    DistinctSameElements(a, b);
    SortedIsUnique(a, b, leq);
  }

  /** Before item `i` its bin was the first of those of least load. */
  ghost predicate FirstOfLightest(w: seq<real>, a: seq<nat>, i: nat, m: int)
    requires i < |w| && |a| == |w|
  {
    forall b: nat :: b < m ==>
      && Packing.Load(w, a, a[i], i) <= Packing.Load(w, a, b, i)
      && (b < a[i] ==> Packing.Load(w, a, a[i], i) < Packing.Load(w, a, b, i))
  }

  /**
   * The plan is what packing longest first says: taking the files in that order, all ordinary nodes of a file go to the
   * first of those shards whose files so far add up to the fewest seconds.
   */
  lemma PlanPacksLongestFirst(records: seq<Record>, inputs: Inputs, p: Plan, files: seq<string>)
    returns (seconds: seq<real>, homes: seq<nat>)
    requires PlanOf(records, inputs) == Ok(p) && LongestFirst(records, inputs, files)
    ensures |seconds| == |homes| == |files| && |p.shards| == inputs.ordinaryShards + 1
    ensures forall i :: 0 <= i < |files| ==>
      seconds[i] == SecondsOf(records, inputs, files[i]) && homes[i] < inputs.ordinaryShards
    ensures forall i, r :: 0 <= i < |files| && r in records && !SetApart(r, inputs) && FileOf(r.id) == files[i] ==>
      r.id in p.shards[homes[i] + 1].ids
    ensures forall i :: 0 <= i < |files| ==> FirstOfLightest(seconds, homes, i, inputs.ordinaryShards)
  {
    var order := PackingOrder(records, inputs);
    ShardCount(records, inputs, p);
    OrderIsLongestFirst(records, inputs);
    LongestFirstIsUnique(records, inputs, files, Paths(order));
    seconds := WeightsOf(order);
    homes := Packing.Pack(seconds, inputs.ordinaryShards, |seconds|);
    forall i | 0 <= i < |files| ensures seconds[i] == SecondsOf(records, inputs, files[i]) {
      OrderWeighs(records, inputs, i);
    }
    forall i, r | 0 <= i < |files| && r in records && !SetApart(r, inputs) && FileOf(r.id) == files[i]
      ensures r.id in p.shards[homes[i] + 1].ids
    {
      NodeIsPacked(records, inputs, p, i, r);
    }
    GreedyRule(seconds, inputs.ordinaryShards);
  }

  lemma NodeIsPacked(records: seq<Record>, inputs: Inputs, p: Plan, i: nat, r: Record)
    requires PlanOf(records, inputs) == Ok(p) && r in records && !SetApart(r, inputs)
    requires i < |PackingOrder(records, inputs)| && PackingOrder(records, inputs)[i].path == FileOf(r.id)
    ensures var order := PackingOrder(records, inputs);
      var b := Packing.Pack(WeightsOf(order), inputs.ordinaryShards, |order|)[i];
      b + 1 < |p.shards| && r.id in p.shards[b + 1].ids
  {
    var order := PackingOrder(records, inputs);
    ShardCount(records, inputs, p);
    MembersAreIds(records, inputs, p, Packing.Pack(WeightsOf(order), inputs.ordinaryShards, |order|)[i], i);
    GroupIsOrdinary(records, inputs, FileOf(r.id));
    assert r.id in OrdinaryIn(records, inputs, FileOf(r.id));
  }

  lemma GreedyRule(w: seq<real>, m: nat)
    requires m >= 1
    ensures forall i :: 0 <= i < |w| ==> FirstOfLightest(w, Packing.Pack(w, m, |w|), i, m)
  {
    var a := Packing.Pack(w, m, |w|);
    Packing.PackIsGreedy(w, m);
    forall i | 0 <= i < |w| ensures FirstOfLightest(w, a, i, m) {
      var loads := Packing.Loads(w, a, m, i);
      assert Packing.FirstLeast(loads, a[i]);
      forall b: nat | b < m ensures loads[b] == Packing.Load(w, a, b, i) {}
    }
  }
}
