/** The progress aggregator: one document published over the documents of the shards. */
module Progress {
  import opened Wrappers
  import opened Order
  import ShardPlan

  const SAMPLE_INTERVAL := 30.0
  const SAMPLES_SHOWN := 1440
  const FAILURES_SHOWN := 50

  /** What one shard reports. */
  datatype Doc = Doc(
    pid: nat, total: nat, done: nat, passed: nat, failed: nat, errors: nat, skipped: nat, failedNodes: seq<string>,
    current: Option<string>, currentTiers: seq<string>, currentStarted: Option<real>, longest: real, finished: bool,
    writeErrors: nat)

  type Docs = map<string, Doc>

  datatype Sample = Sample(at: real, done: nat)

  /** The summary of one shard in a published document. */
  datatype Brief = Brief(
    pid: nat, total: nat, done: nat, passed: nat, failed: nat, errors: nat, skipped: nat, current: Option<string>,
    finished: bool)

  /** The aggregating process: its id, and when its loop began. */
  datatype Process = Process(pid: nat, started: real)

  datatype Published = Published(
    me: Process, updated: real, total: nat, done: nat, passed: nat, failed: nat, errors: nat, skipped: nat,
    failedNodes: seq<string>, current: Option<string>, currentShard: string, currentTiers: seq<string>,
    currentStarted: Option<real>, longest: real, history: seq<Sample>, finished: bool, writeErrors: nat,
    shards: map<string, Brief>)

  function TotalOf(d: Doc): nat { d.total }
  function DoneOf(d: Doc): nat { d.done }
  function PassedOf(d: Doc): nat { d.passed }
  function FailedOf(d: Doc): nat { d.failed }
  function ErrorsOf(d: Doc): nat { d.errors }
  function SkippedOf(d: Doc): nat { d.skipped }
  function WriteErrorsOf(d: Doc): nat { d.writeErrors }

  // ---------------------------------------------------------------- Sums over the shards

  function SumOver(names: seq<string>, docs: Docs, count: Doc -> nat): nat
    requires forall n :: n in names ==> n in docs
  {
    if names == [] then 0 else count(docs[names[0]]) + SumOver(names[1..], docs, count)
  }

  function Names(docs: Docs): (r: seq<string>)
    ensures Distinct(r) && forall n :: n in r <==> n in docs
  {
    AscendingElements(docs.Keys);
    Ascending(docs.Keys)
  }

  function Sum(docs: Docs, count: Doc -> nat): nat {
    SumOver(Names(docs), docs, count)
  }

  lemma {:induction false} SumOverTakeOut(names: seq<string>, docs: Docs, count: Doc -> nat, i: nat)
    requires i < |names| && forall n :: n in names ==> n in docs
    ensures var rest := names[..i] + names[i + 1..];
      && (forall n :: n in rest ==> n in docs)
      && SumOver(names, docs, count) == count(docs[names[i]]) + SumOver(rest, docs, count)
  {
    if i == 0 {
      assert names[..0] + names[1..] == names[1..];
    } else {
      var tail := names[1..];
      SumOverTakeOut(tail, docs, count, i - 1);
      var rest := names[..i] + names[i + 1..];
      assert rest == [names[0]] + (tail[..i - 1] + tail[i..]);
      assert rest[1..] == tail[..i - 1] + tail[i..];
    }
  }

  lemma TakeOutElements(names: seq<string>, i: nat)
    requires i < |names| && Distinct(names)
    ensures var rest := names[..i] + names[i + 1..];
      Distinct(rest) && forall n :: n in rest <==> n in names && n != names[i]
  {
    var rest := names[..i] + names[i + 1..];
    forall n | n in names && n != names[i] ensures n in rest {
      var k :| 0 <= k < |names| && names[k] == n;
      assert n == if k < i then rest[k] else rest[k - 1];
    }
  }

  /** The sum grows when every counted shard stays and counts no less; names may come in any order. */
  lemma {:induction false} SumOverGrows(a: seq<string>, before: Docs, b: seq<string>, after: Docs, count: Doc -> nat)
    requires Distinct(a) && Distinct(b)
    requires (forall n :: n in a ==> n in before) && (forall n :: n in b ==> n in after)
    requires forall n :: n in a ==> n in b && count(before[n]) <= count(after[n])
    ensures SumOver(a, before, count) <= SumOver(b, after, count)
  {
    if a != [] {
      assert a[0] in b;
      var i :| 0 <= i < |b| && b[i] == a[0];
      TakeOutElements(b, i);
      SumOverTakeOut(b, after, count, i);
      DistinctHead(a);
      SumOverGrows(a[1..], before, b[..i] + b[i + 1..], after, count);
    }
  }

  /** A sum over the shards does not depend on their order, and takes each shard once. */
  lemma SumTakesEachShardOnce(docs: Docs, count: Doc -> nat, name: string)
    requires name in docs
    ensures Sum(docs, count) == count(docs[name]) + Sum(docs - {name}, count)
  {
    var all, rest := Names(docs), docs - {name};
    var i :| 0 <= i < |all| && all[i] == name;
    var others := all[..i] + all[i + 1..];
    TakeOutElements(all, i);
    SumOverTakeOut(all, docs, count, i);
    SumOverGrows(others, docs, Names(rest), rest, count);
    SumOverGrows(Names(rest), rest, others, docs, count);
  }

  lemma SumGrows(before: Docs, after: Docs, count: Doc -> nat)
    requires forall n :: n in before ==> n in after && count(before[n]) <= count(after[n])
    ensures Sum(before, count) <= Sum(after, count)
  {
    SumOverGrows(Names(before), before, Names(after), after, count);
  }

  // ---------------------------------------------------------------- One document

  function Sampled(history: seq<Sample>, now: real, done: nat): seq<Sample> {
    if history == [] || now - history[|history| - 1].at >= SAMPLE_INTERVAL then history + [Sample(now, done)]
    else history
  }

  function Shown<T>(s: seq<T>, n: nat): seq<T> {
    if |s| <= n then s else s[|s| - n..]
  }

  function Labelled(name: string, nodes: seq<string>): seq<string> {
    seq(|nodes|, i requires 0 <= i < |nodes| => name + ":" + nodes[i])
  }

  function Failures(names: seq<string>, docs: Docs): seq<string>
    requires forall n :: n in names ==> n in docs
  {
    if names == [] then []
    else Labelled(names[0], docs[names[0]].failedNodes) + Failures(names[1..], docs)
  }

  predicate AllFinished(docs: Docs) {
    forall n :: n in docs ==> docs[n].finished
  }

  /** The longest node of any shard; 0 if there are none. */
  function Longest(names: seq<string>, docs: Docs): real
    requires forall n :: n in names ==> n in docs
  {
    if names == [] then 0.0
    else
      var own := docs[names[0]].longest;
      if |names| == 1 then own
      else
        var rest := Longest(names[1..], docs);
        if own >= rest then own else rest
  }

  function BriefOf(d: Doc): Brief {
    Brief(d.pid, d.total, d.done, d.passed, d.failed, d.errors, d.skipped, d.current, d.finished)
  }

  function DocumentOf(docs: Docs, now: real, me: Process, history: seq<Sample>): Published {
    var failures := Failures(Names(docs), docs);
    var exclusive := if ShardPlan.EXCLUSIVE in docs then Some(docs[ShardPlan.EXCLUSIVE]) else None;
    Published(me, now,
              Sum(docs, TotalOf), Sum(docs, DoneOf), Sum(docs, PassedOf),
              Sum(docs, FailedOf), Sum(docs, ErrorsOf), Sum(docs, SkippedOf),
              if |failures| <= FAILURES_SHOWN then failures else failures[..FAILURES_SHOWN],
              if exclusive.Some? then exclusive.value.current else None, ShardPlan.EXCLUSIVE,
              if exclusive.Some? then exclusive.value.currentTiers else [],
              if exclusive.Some? then exclusive.value.currentStarted else None,
              Longest(Names(docs), docs),
              Shown(history, SAMPLES_SHOWN), AllFinished(docs), Sum(docs, WriteErrorsOf),
              map name | name in docs :: BriefOf(docs[name]))
  }

  // ---------------------------------------------------------------- The loop

  /** How many shards must report, whether one document is enough, and who aggregates. */
  datatype Options = Options(needed: int, once: bool, me: Process)

  /** What the loop finds when it wakes: the shards that report, the clock, and whether it has been told to stop. */
  datatype Round = Round(docs: Docs, now: real, stop: bool)

  /** The loop after some rounds: its samples, what it published, and its exit status once it has returned. */
  datatype Loop = Loop(history: seq<Sample>, published: seq<Published>, exit: Option<int>)

  function Wake(l: Loop, r: Round, o: Options): Loop {
    if l.exit.Some? then l
    else if r.stop then l.(exit := Some(0))
    else if |r.docs| >= o.needed then
      var history := Sampled(l.history, r.now, Sum(r.docs, DoneOf));
      var document := DocumentOf(r.docs, r.now, o.me, history);
      Loop(history, l.published + [document], if document.finished || o.once then Some(0) else None)
    else if o.once then l.(exit := Some(1))
    else l
  }

  function LoopAfter(rounds: seq<Round>, o: Options): Loop {
    if rounds == [] then Loop([], [], None)
    else Wake(LoopAfter(rounds[..|rounds| - 1], o), rounds[|rounds| - 1], o)
  }

  class Aggregator {
    const me: Process
    var history: seq<Sample>

    constructor (me: Process)
      ensures history == [] && this.me == me
    {
      this.me := me;
      history := [];
    }

    method Snapshot(docs: Docs, now: real) returns (document: Published)
      modifies this
      ensures history == Sampled(old(history), now, Sum(docs, DoneOf))
      ensures document == DocumentOf(docs, now, me, history)
    {
      var done := Sum(docs, DoneOf);
      if history == [] || now - history[|history| - 1].at >= SAMPLE_INTERVAL {
        history := history + [Sample(now, done)];
      }
      assert history == Sampled(old(history), now, done);
      document := DocumentOf(docs, now, me, history);
    }
  }

  /** The loop over the rounds it lives to see. */
  method Aggregate(rounds: seq<Round>, o: Options) returns (published: seq<Published>, exit: Option<int>)
    ensures published == LoopAfter(rounds, o).published && exit == LoopAfter(rounds, o).exit
  {
    var aggregator := new Aggregator(o.me);
    published, exit := [], None;
    var n := 0;
    while n < |rounds| && exit == None
      invariant n <= |rounds|
      invariant Loop(aggregator.history, published, exit) == LoopAfter(rounds[..n], o)
    {
      var round := rounds[n];
      assert rounds[..n + 1][..n] == rounds[..n];
      n := n + 1;
      if round.stop {
        exit := Some(0);
      } else if |round.docs| >= o.needed {
        var document := aggregator.Snapshot(round.docs, round.now);
        published := published + [document];
        if document.finished || o.once {
          exit := Some(0);
        }
      } else if o.once {
        exit := Some(1);
      }
    }
    ExitStays(rounds, n, o);
    assert rounds[..|rounds|] == rounds;
  }

  lemma {:induction false} ExitStays(rounds: seq<Round>, n: nat, o: Options)
    requires n <= |rounds| && (n == |rounds| || LoopAfter(rounds[..n], o).exit.Some?)
    ensures LoopAfter(rounds, o) == LoopAfter(rounds[..n], o)
    decreases |rounds|
  {
    if n == |rounds| {
      assert rounds[..n] == rounds;
    } else {
      var before := rounds[..|rounds| - 1];
      assert before[..n] == rounds[..n];
      ExitStays(before, n, o);
    }
  }

  // ---------------------------------------------------------------- What a run publishes

  /** The round is one that publishes, if the loop lives to see it. */
  predicate Publishes(r: Round, needed: int) {
    !r.stop && |r.docs| >= needed
  }

  /** The document is the snapshot of round `r`: not stopped, with enough shards reporting. */
  ghost predicate SnapshotOf(document: Published, rounds: seq<Round>, r: nat, o: Options) {
    && r < |rounds| && Publishes(rounds[r], o.needed)
    && document == DocumentOf(rounds[r].docs, rounds[r].now, o.me, LoopAfter(rounds[..r + 1], o).history)
  }

  lemma SnapshotOfLonger(document: Published, rounds: seq<Round>, r: nat, o: Options)
    requires rounds != [] && SnapshotOf(document, rounds[..|rounds| - 1], r, o)
    ensures SnapshotOf(document, rounds, r, o)
  {
    assert rounds[..|rounds| - 1][..r + 1] == rounds[..r + 1];
  }

  /** The round in which document `k` was made: the first whose run has it. */
  function SourceOf(rounds: seq<Round>, o: Options, k: nat): (r: nat)
    requires k < |LoopAfter(rounds, o).published|
    ensures r < |rounds|
  {
    var earlier := rounds[..|rounds| - 1];
    if k < |LoopAfter(earlier, o).published| then SourceOf(earlier, o, k) else |rounds| - 1
  }

  lemma LastDocumentIsSnapshot(rounds: seq<Round>, o: Options, k: nat)
    requires rounds != [] && k == |LoopAfter(rounds[..|rounds| - 1], o).published|
    requires k < |LoopAfter(rounds, o).published|
    ensures SnapshotOf(LoopAfter(rounds, o).published[k], rounds, |rounds| - 1, o)
  {
    assert rounds[..|rounds|] == rounds;
  }

  lemma LoopKeepsDocuments(rounds: seq<Round>, o: Options)
    requires rounds != []
    ensures var before, after := LoopAfter(rounds[..|rounds| - 1], o), LoopAfter(rounds, o);
      && |before.published| <= |after.published| <= |before.published| + 1
      && forall k :: 0 <= k < |before.published| ==> after.published[k] == before.published[k]
  {}

  /** Every document of a run is the snapshot of one round's shards. */
  lemma {:induction false} DocumentsAreSnapshots(rounds: seq<Round>, o: Options, k: nat)
    requires k < |LoopAfter(rounds, o).published|
    ensures var r := SourceOf(rounds, o, k);
      SnapshotOf(LoopAfter(rounds, o).published[k], rounds, r, o)
  {
    var earlier := rounds[..|rounds| - 1];
    LoopKeepsDocuments(rounds, o);
    if k < |LoopAfter(earlier, o).published| {
      DocumentsAreSnapshots(earlier, o, k);
      var document, r := LoopAfter(earlier, o).published[k], SourceOf(earlier, o, k);
      SnapshotOfLonger(document, rounds, r, o);
    } else {
      LastDocumentIsSnapshot(rounds, o, k);
    }
  }

  /** Later documents come from later rounds. */
  lemma {:induction false} SourcesIncrease(rounds: seq<Round>, o: Options, k: nat, l: nat)
    requires k < l < |LoopAfter(rounds, o).published|
    ensures SourceOf(rounds, o, k) < SourceOf(rounds, o, l)
  {
    var earlier := rounds[..|rounds| - 1];
    if l < |LoopAfter(earlier, o).published| {
      SourcesIncrease(earlier, o, k, l);
    }
  }

  /** Samples are at least the interval apart, whatever the clock does. */
  ghost predicate Spaced(history: seq<Sample>) {
    forall i, j :: 0 <= i < j < |history| ==> history[j].at - history[i].at >= SAMPLE_INTERVAL
  }

  lemma SampledStaysSpaced(history: seq<Sample>, now: real, done: nat)
    requires Spaced(history)
    ensures Spaced(Sampled(history, now, done)) && Sampled(history, now, done) != []
    ensures now - Sampled(history, now, done)[|Sampled(history, now, done)| - 1].at < SAMPLE_INTERVAL
  {}

  lemma ShownStaysSpaced(history: seq<Sample>)
    requires Spaced(history) && history != []
    ensures var shown := Shown(history, SAMPLES_SHOWN);
      && 1 <= |shown| <= SAMPLES_SHOWN && Spaced(shown)
      && shown[|shown| - 1] == history[|history| - 1]
  {}

  /** What a document shows of its samples: few, spaced, the last less than an interval older than the document. */
  ghost predicate ShowsSpacedSamples(d: Published) {
    && 1 <= |d.history| <= SAMPLES_SHOWN && Spaced(d.history)
    && d.updated - d.history[|d.history| - 1].at < SAMPLE_INTERVAL
  }

  lemma WakeKeepsSpaced(l: Loop, r: Round, o: Options)
    requires Spaced(l.history)
    ensures Spaced(Wake(l, r, o).history)
    ensures var after := Wake(l, r, o).published;
      |after| == |l.published| || ShowsSpacedSamples(after[|l.published|])
  {
    var history := Sampled(l.history, r.now, Sum(r.docs, DoneOf));
    SampledStaysSpaced(l.history, r.now, Sum(r.docs, DoneOf));
    ShownStaysSpaced(history);
  }

  lemma {:induction false} HistoryIsSpaced(rounds: seq<Round>, o: Options)
    ensures Spaced(LoopAfter(rounds, o).history)
  {
    if rounds != [] {
      HistoryIsSpaced(rounds[..|rounds| - 1], o);
      WakeKeepsSpaced(LoopAfter(rounds[..|rounds| - 1], o), rounds[|rounds| - 1], o);
    }
  }

  /** Whatever the clock does, every document of every run shows spaced samples. */
  lemma {:induction false} PublishedHistoryIsSpaced(rounds: seq<Round>, o: Options, k: nat)
    requires k < |LoopAfter(rounds, o).published|
    ensures ShowsSpacedSamples(LoopAfter(rounds, o).published[k])
  {
    var earlier := rounds[..|rounds| - 1];
    var before := LoopAfter(earlier, o);
    if k < |before.published| {
      PublishedHistoryIsSpaced(earlier, o, k);
    } else {
      HistoryIsSpaced(earlier, o);
      WakeKeepsSpaced(before, rounds[|rounds| - 1], o);
    }
  }

  /** Only the last document can say "finished"; the loop has then returned 0 with enough shards, all finished. */
  lemma {:induction false} FinishedIsLast(rounds: seq<Round>, o: Options, k: nat)
    requires var l := LoopAfter(rounds, o); k < |l.published| && l.published[k].finished
    ensures var l := LoopAfter(rounds, o); k == |l.published| - 1 && l.exit == Some(0)
    ensures exists r: nat :: r < |rounds| && |rounds[r].docs| >= o.needed && AllFinished(rounds[r].docs)
  {
    var n := |rounds| - 1;
    if k < |LoopAfter(rounds[..n], o).published| {
      FinishedIsLast(rounds[..n], o, k);
      var r: nat :| r < n && |rounds[..n][r].docs| >= o.needed && AllFinished(rounds[..n][r].docs);
      assert rounds[..n][r] == rounds[r];
    } else {
      assert AllFinished(rounds[n].docs);
    }
  }

  /** From one round to a later one no shard disappears and none counts back. */
  ghost predicate Advances(before: Docs, after: Docs) {
    forall n :: n in before ==> n in after && before[n].done <= after[n].done
  }

  /** If from one publishing round to another shards only appear and advance, the published `done` never decreases. */
  lemma DoneNeverDecreases(rounds: seq<Round>, o: Options, k: nat, l: nat)
    requires forall i, j :: 0 <= i < j < |rounds| && Publishes(rounds[i], o.needed) && Publishes(rounds[j], o.needed)
               ==> Advances(rounds[i].docs, rounds[j].docs)
    requires k < l < |LoopAfter(rounds, o).published|
    ensures var published := LoopAfter(rounds, o).published; published[k].done <= published[l].done
  {
    DocumentsAreSnapshots(rounds, o, k);
    DocumentsAreSnapshots(rounds, o, l);
    SourcesIncrease(rounds, o, k, l);
    var from, to := SourceOf(rounds, o, k), SourceOf(rounds, o, l);
    SumGrows(rounds[from].docs, rounds[to].docs, DoneOf);
  }

  /** With `once` the first round decides: 1 when too few shards report, 0 otherwise; without it never 1. */
  lemma {:induction false} ExitStatus(rounds: seq<Round>, o: Options)
    ensures LoopAfter(rounds, o).exit == Some(1)
       <==> o.once && rounds != [] && !rounds[0].stop && |rounds[0].docs| < o.needed
    ensures o.once && rounds != [] ==> LoopAfter(rounds, o).exit.Some?
    ensures LoopAfter(rounds, o).exit in {None, Some(0), Some(1)}
  {
    if |rounds| > 1 {
      ExitStatus(rounds[..|rounds| - 1], o);
    } else if rounds != [] {
      assert rounds[..0] == [] && LoopAfter([], o) == Loop([], [], None);
    }
  }

  // ---------------------------------------------------------------- Failures and vanished shards

  lemma {:induction false} FailuresIff(names: seq<string>, docs: Docs)
    requires forall n :: n in names ==> n in docs
    ensures Failures(names, docs) == [] <==> forall n :: n in names ==> docs[n].failedNodes == []
  {
    if names != [] {
      FailuresIff(names[1..], docs);
    }
  }

  /** Cutting the list of failures to fifty never hides that there are some. */
  lemma FailuresAreNotHidden(docs: Docs, now: real, me: Process, history: seq<Sample>)
    ensures DocumentOf(docs, now, me, history).failedNodes == []
       <==> forall n :: n in docs ==> docs[n].failedNodes == []
    ensures |DocumentOf(docs, now, me, history).failedNodes| <= FAILURES_SHOWN
  {
    FailuresIff(Names(docs), docs);
  }

  lemma FinishedTakesEachShard(docs: Docs, name: string)
    requires name in docs
    ensures AllFinished(docs) <==> docs[name].finished && AllFinished(docs - {name})
  {
    assert forall n :: n in docs <==> n == name || n in docs - {name};
  }

  /** Every counter of a document takes each shard exactly once. */
  lemma EachShardCountsOnce(docs: Docs, name: string, now: real, me: Process, history: seq<Sample>)
    requires name in docs
    ensures var all, others := DocumentOf(docs, now, me, history), DocumentOf(docs - {name}, now, me, history);
      var one := docs[name];
      && all.total == one.total + others.total && all.done == one.done + others.done
      && all.passed == one.passed + others.passed && all.failed == one.failed + others.failed
      && all.errors == one.errors + others.errors && all.skipped == one.skipped + others.skipped
      && all.writeErrors == one.writeErrors + others.writeErrors
      && (all.finished <==> one.finished && others.finished)
  {
    SumTakesEachShardOnce(docs, TotalOf, name);
    SumTakesEachShardOnce(docs, DoneOf, name);
    SumTakesEachShardOnce(docs, PassedOf, name);
    SumTakesEachShardOnce(docs, FailedOf, name);
    SumTakesEachShardOnce(docs, ErrorsOf, name);
    SumTakesEachShardOnce(docs, SkippedOf, name);
    SumTakesEachShardOnce(docs, WriteErrorsOf, name);
    FinishedTakesEachShard(docs, name);
  }

  /** And starts from nothing. */
  lemma NoShardsCountNothing(now: real, me: Process, history: seq<Sample>)
    ensures var none := DocumentOf(map[], now, me, history);
      && none.total == none.done == none.passed == none.failed == none.errors == none.skipped == none.writeErrors == 0
      && none.finished
  {}

  lemma {:induction false} LongestIsMaximum(names: seq<string>, docs: Docs)
    requires names != [] && forall n :: n in names ==> n in docs
    ensures forall n :: n in names ==> docs[n].longest <= Longest(names, docs)
    ensures exists n :: n in names && docs[n].longest == Longest(names, docs)
  {
    if |names| > 1 {
      var rest := names[1..];
      LongestIsMaximum(rest, docs);
      var n :| n in rest && docs[n].longest == Longest(rest, docs);
      assert n in names && names[0] in names;
      assert names == [names[0]] + rest;
    } else {
      assert names[0] in names;
    }
  }

  /** A document shows the longest node of its shards. */
  lemma LongestIsShown(docs: Docs, now: real, me: Process, history: seq<Sample>)
    ensures var d := DocumentOf(docs, now, me, history);
      if docs == map[] then d.longest == 0.0
      else
        && (forall n :: n in docs ==> docs[n].longest <= d.longest)
        && exists n :: n in docs && docs[n].longest == d.longest
  {
    if docs != map[] {
      var n :| n in docs;
      assert n in Names(docs);
      LongestIsMaximum(Names(docs), docs);
    }
  }

  /** A shard that vanishes takes its completed nodes with it. */
  lemma VanishedShardLowersDone(docs: Docs, name: string, now: real, me: Process, history: seq<Sample>)
    requires name in docs
    ensures DocumentOf(docs - {name}, now, me, history).done < DocumentOf(docs, now, me, history).done
       <==> docs[name].done > 0
  {
    SumTakesEachShardOnce(docs, DoneOf, name);
  }
}
