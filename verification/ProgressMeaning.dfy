/** Published progress in plain terms: every field of a document, and which rounds are published. */
module ProgressMeaning {
  import opened Wrappers
  import opened Order
  import opened Progress

  // ---------------------------------------------------------------- The fields of a document

  /** What a document says besides its counters: who wrote it and when, the exclusive shard's node, and every shard. */
  lemma DocumentSays(docs: Docs, now: real, me: Process, history: seq<Sample>)
    ensures var d := DocumentOf(docs, now, me, history);
      && d.me == me && d.updated == now && d.currentShard == "exclusive"
      && (if "exclusive" in docs then
            var x := docs["exclusive"];
            d.current == x.current && d.currentTiers == x.currentTiers && d.currentStarted == x.currentStarted
          else d.current == None && d.currentTiers == [] && d.currentStarted == None)
      && (d.finished <==> forall name :: name in docs ==> docs[name].finished)
      && d.shards.Keys == docs.Keys
      && forall name :: name in docs ==>
           var x, b := docs[name], d.shards[name];
           && b.pid == x.pid && b.total == x.total && b.done == x.done && b.passed == x.passed && b.failed == x.failed
           && b.errors == x.errors && b.skipped == x.skipped && b.current == x.current && b.finished == x.finished
  {}

  /** The failed nodes of the shards, shard by shard in the order of their names, each under its shard's name. */
  ghost predicate ListsFailures(list: seq<string>, names: seq<string>, docs: Docs)
    requires forall n :: n in names ==> n in docs
  {
    if names == [] then list == []
    else
      var own := docs[names[0]].failedNodes;
      && |own| <= |list|
      && (forall i :: 0 <= i < |own| ==> list[i] == names[0] + ":" + own[i])
      && ListsFailures(list[|own|..], names[1..], docs)
  }

  lemma {:induction false} FailuresAreListed(names: seq<string>, docs: Docs)
    requires forall n :: n in names ==> n in docs
    ensures ListsFailures(Failures(names, docs), names, docs)
  {
    if names != [] {
      var own := Labelled(names[0], docs[names[0]].failedNodes);
      FailuresAreListed(names[1..], docs);
      assert Failures(names, docs)[|own|..] == Failures(names[1..], docs);
      assert forall i :: 0 <= i < |own| ==> Failures(names, docs)[i] == own[i];
    }
  }

  /** A document shows the first fifty failed nodes of its shards. */
  lemma FailuresAre(docs: Docs, now: real, me: Process, history: seq<Sample>)
    returns (names: seq<string>, all: seq<string>)
    ensures Distinct(names) && Sorted(names, StringLeq) && forall n :: n in names <==> n in docs
    ensures ListsFailures(all, names, docs)
    ensures DocumentOf(docs, now, me, history).failedNodes == if |all| <= 50 then all else all[..50]
  {
    names := Names(docs);
    AscendingElements(docs.Keys);
    all := Failures(names, docs);
    FailuresAreListed(names, docs);
  }

  /** A document shows the last samples of its history, 1440 at most, in order. */
  lemma HistoryIsShown(docs: Docs, now: real, me: Process, history: seq<Sample>)
    ensures var shown := DocumentOf(docs, now, me, history).history;
      && |shown| == (if |history| <= 1440 then |history| else 1440)
      && forall i :: 0 <= i < |shown| ==> shown[i] == history[|history| - |shown| + i]
  {
    ShownIs(history, 1440);
  }

  lemma ShownIs<T>(s: seq<T>, n: nat)
    ensures |Shown(s, n)| == if |s| <= n then |s| else n
    ensures forall i :: 0 <= i < |Shown(s, n)| ==> Shown(s, n)[i] == s[|s| - |Shown(s, n)| + i]
  {}

  // ---------------------------------------------------------------- Samples and rounds

  /** Every sample is the time and the count of a published document. */
  lemma {:induction false} SamplesAreDocuments(rounds: seq<Round>, o: Options, i: nat) returns (k: nat)
    requires i < |LoopAfter(rounds, o).history|
    ensures var l := LoopAfter(rounds, o);
      k < |l.published| && l.history[i] == Sample(l.published[k].updated, l.published[k].done)
  {
    var earlier := rounds[..|rounds| - 1];
    var before := LoopAfter(earlier, o);
    LoopKeepsDocuments(rounds, o);
    if i < |before.history| {
      k := SamplesAreDocuments(earlier, o, i);
    } else {
      k := |before.published|;
    }
  }

  /** The history grows by a sample exactly when a document is published and the last sample is thirty seconds old, or
      there is none. */
  lemma HistoryGrowsIff(rounds: seq<Round>, o: Options)
    requires rounds != []
    ensures var before, after := LoopAfter(rounds[..|rounds| - 1], o), LoopAfter(rounds, o);
      var now := rounds[|rounds| - 1].now;
      && |after.history| == |before.history| + (
           if |after.published| > |before.published|
              && (before.history == [] || now - before.history[|before.history| - 1].at >= 30.0) then 1 else 0)
      && after.history[..|before.history|] == before.history
  {
    var before := LoopAfter(rounds[..|rounds| - 1], o);
    assert before.history[..|before.history|] == before.history;
    assert forall s :: (before.history + [s])[..|before.history|] == before.history;
  }

  ghost predicate Runs(rounds: seq<Round>, o: Options) {
    LoopAfter(rounds, o).exit == None
  }

  /** As long as the loop runs it has not been told to stop, and every round with enough shards has been published, once
      and in order, as of its time. */
  lemma {:induction false} EveryRoundIsPublished(rounds: seq<Round>, o: Options, r: nat) returns (k: nat)
    requires Runs(rounds, o) && r < |rounds|
    ensures !rounds[r].stop
    ensures |rounds[r].docs| >= o.needed ==>
      var published := LoopAfter(rounds, o).published;
      && k < |published| && published[k].updated == rounds[r].now && published[k].shards.Keys == rounds[r].docs.Keys
      && SourceOf(rounds, o, k) == r
  {
    var earlier := rounds[..|rounds| - 1];
    assert Runs(earlier, o);
    LoopKeepsDocuments(rounds, o);
    if r < |rounds| - 1 {
      k := EveryRoundIsPublished(earlier, o, r);
    } else {
      k := |LoopAfter(earlier, o).published|;
    }
  }

  /** The loop ends when it is told to stop, when everything has finished, or, once, after its first round. */
  lemma EndsWhen(rounds: seq<Round>, o: Options)
    requires rounds != [] && Runs(rounds[..|rounds| - 1], o)
    ensures var last, exit := rounds[|rounds| - 1], LoopAfter(rounds, o).exit;
      var unfinished := exists n :: n in last.docs && !last.docs[n].finished;
      exit == if last.stop then Some(0)
              else if |last.docs| < o.needed then (if o.once then Some(1) else None)
              else if o.once || !unfinished then Some(0) else None
  {}
}
