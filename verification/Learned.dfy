/** Learned knowledge: a text is cut into overlapping chunks, and a source keeps the chunks of the last text
    learned under its name. */
module Learned {
  import opened Wrappers

  const CHUNK := 1000
  const OVERLAP := 150
  const STRIDE := 850  // CHUNK - OVERLAP

  /** Where chunk `k` starts. */
  function StartOf(k: nat): nat {
    STRIDE * k
  }

  // ---------------------------------------------------------------- Chunks

  function ChunkAt(content: string, start: nat): string
    requires start <= |content|
  {
    if start + CHUNK <= |content| then content[start..start + CHUNK] else content[start..]
  }

  /** The chunks from position `start` on. */
  function ChunksFrom(content: string, start: nat): seq<string>
    decreases |content| - start
  {
    if start >= |content| then [] else [ChunkAt(content, start)] + ChunksFrom(content, start + STRIDE)
  }

  method CutChunks(content: string) returns (chunks: seq<string>)
    ensures chunks == ChunksFrom(content, 0)
  {
    chunks := [];
    var start := 0;
    while start < |content|
      invariant chunks + ChunksFrom(content, start) == ChunksFrom(content, 0)
    {
      ghost var rest := ChunksFrom(content, start + STRIDE);
      assert chunks + [ChunkAt(content, start)] + rest == chunks + ([ChunkAt(content, start)] + rest);
      chunks := chunks + [ChunkAt(content, start)];
      start := start + (CHUNK - OVERLAP);
    }
  }

  /** Chunk `k` starts `k` strides on, and the chunks stop at the first stride past the content. */
  lemma {:induction false} ChunkPositions(content: string, start: nat)
    ensures var chunks := ChunksFrom(content, start);
      && start + StartOf(|chunks|) >= |content|
      && forall k :: 0 <= k < |chunks| ==>
           start + StartOf(k) < |content| && chunks[k] == ChunkAt(content, start + StartOf(k))
    decreases |content| - start
  {
    if start < |content| {
      ChunkPositions(content, start + STRIDE);
      var chunks, rest := ChunksFrom(content, start), ChunksFrom(content, start + STRIDE);
      forall k | 0 <= k < |chunks|
        ensures start + StartOf(k) < |content| && chunks[k] == ChunkAt(content, start + StartOf(k))
      {
        if k > 0 {
          assert chunks[k] == rest[k - 1] && start + STRIDE + StartOf(k - 1) == start + StartOf(k);
        }
      }
    }
  }

  /** The number of chunks is the length divided by the stride, rounded up. */
  lemma ChunkCount(content: string)
    ensures |ChunksFrom(content, 0)| == (|content| + STRIDE - 1) / STRIDE
  {
    ChunkPositions(content, 0);
    var n := |ChunksFrom(content, 0)|;
    assert n > 0 ==> StartOf(n - 1) < |content|;
  }

  function Front(chunk: string): string {
    if |chunk| <= STRIDE then chunk else chunk[..STRIDE]
  }

  function Fronts(chunks: seq<string>): string {
    if chunks == [] then [] else Front(chunks[0]) + Fronts(chunks[1..])
  }

  /** Nothing is lost: the first stride of every chunk, joined, is the content. */
  lemma {:induction false} ChunksCoverContent(content: string, start: nat)
    requires start <= |content|
    ensures Fronts(ChunksFrom(content, start)) == content[start..]
    decreases |content| - start
  {
    if start < |content| {
      var chunks := ChunksFrom(content, start);
      assert chunks[1..] == ChunksFrom(content, start + STRIDE);
      if start + STRIDE <= |content| {
        ChunksCoverContent(content, start + STRIDE);
        assert Front(chunks[0]) == content[start..start + STRIDE];
        assert content[start..] == content[start..start + STRIDE] + content[start + STRIDE..];
      } else {
        assert ChunksFrom(content, start + STRIDE) == [];
        assert Front(chunks[0]) == content[start..];
      }
    }
  }

  /** The characters from `i` to `j` lie inside one chunk. */
  ghost predicate InOneChunk(content: string, i: nat, j: nat) {
    exists k: nat :: k < |ChunksFrom(content, 0)| && StartOf(k) <= i && j <= StartOf(k) + |ChunksFrom(content, 0)[k]|
  }

  /** Every passage of at most one character more than the overlap is inside one chunk. */
  lemma ShortPassagesStayWhole(content: string, i: nat, j: nat)
    requires i < j <= |content| && j - i <= OVERLAP + 1
    ensures InOneChunk(content, i, j)
  {
    ChunkPositions(content, 0);
    var k := i / STRIDE;
    assert StartOf(k) <= i < StartOf(k) + STRIDE;
    assert ChunksFrom(content, 0)[k] == ChunkAt(content, StartOf(k));
  }

  /** The bound is tight: in a long enough text the passage that starts at the last character of a stride and
      is one character longer is in no chunk. */
  lemma LongerPassagesMayBeCut(content: string)
    requires |content| >= STRIDE + OVERLAP + 1
    ensures !InOneChunk(content, STRIDE - 1, STRIDE + OVERLAP + 1)
  {
    ChunkPositions(content, 0);
    assert ChunksFrom(content, 0)[0] == ChunkAt(content, 0);
  }

  // ---------------------------------------------------------------- The store

  datatype Row = Row(text: string, vector: seq<real>, source: string)

  /** The embedding client's answer: a typed refusal, another exception, or the vectors it returned. */
  datatype Embedding = Refused | Broken | Vectors(vectors: seq<seq<real>>)

  datatype Step = Step(source: string, content: string, embedding: Embedding)

  function RowsOf(rows: seq<Row>, source: string): seq<Row> {
    if rows == [] then []
    else if rows[0].source == source then [rows[0]] + RowsOf(rows[1..], source)
    else RowsOf(rows[1..], source)
  }

  function Without(rows: seq<Row>, source: string): seq<Row> {
    if rows == [] then []
    else if rows[0].source == source then Without(rows[1..], source)
    else [rows[0]] + Without(rows[1..], source)
  }

  /** The rows written for a source: one per chunk, as far as the vectors reach. */
  function NewRows(source: string, chunks: seq<string>, vectors: seq<seq<real>>): seq<Row> {
    if chunks == [] || vectors == [] then []
    else [Row(chunks[0], vectors[0], source)] + NewRows(source, chunks[1..], vectors[1..])
  }

  function AfterStep(rows: seq<Row>, step: Step): seq<Row> {
    match step.embedding
    case Refused => rows
    case Broken => rows
    case Vectors(vectors) =>
      Without(rows, step.source) + NewRows(step.source, ChunksFrom(step.content, 0), vectors)
  }

  function AfterSteps(rows: seq<Row>, steps: seq<Step>, n: nat): seq<Row>
    requires n <= |steps|
  {
    if n == 0 then rows else AfterStep(AfterSteps(rows, steps, n - 1), steps[n - 1])
  }

  /** The local vector store, as far as learned knowledge goes. */
  class Store {
    var rows: seq<Row>

    constructor ()
      ensures rows == []
    {
      rows := [];
    }

    method Remove(source: string)
      modifies this
      ensures rows == Without(old(rows), source)
    {
      var kept: seq<Row> := [];
      for i := 0 to |rows|
        invariant rows == old(rows)
        invariant kept + Without(rows[i..], source) == Without(rows, source)
      {
        assert rows[i..][1..] == rows[i + 1..];
        if rows[i].source != source {
          assert kept + ([rows[i]] + Without(rows[i + 1..], source))
              == kept + [rows[i]] + Without(rows[i + 1..], source);
          kept := kept + [rows[i]];
        }
      }
      rows := kept;
    }

    method Add(text: string, vector: seq<real>, source: string)
      modifies this
      ensures rows == old(rows) + [Row(text, vector, source)]
    {
      rows := rows + [Row(text, vector, source)];
    }

    /** Learning one text; `complete` is false when the number of vectors is not the number of chunks, which
        is noticed only after the rows that could be paired have been written. */
    method Learn(step: Step) returns (failed: bool, complete: bool)
      modifies this
      ensures rows == AfterStep(old(rows), step)
      ensures failed <==> step.embedding.Refused?
      ensures complete <==> step.embedding.Vectors? && |step.embedding.vectors| == |ChunksFrom(step.content, 0)|
    {
      var chunks := CutChunks(step.content);
      match step.embedding {
        case Refused =>
          return true, false;
        case Broken =>
          return false, false;
        case Vectors(vectors) =>
          Remove(step.source);
          ghost var kept := rows;
          var i := 0;
          while i < |chunks| && i < |vectors|
            invariant i <= |chunks| && i <= |vectors|
            invariant rows + NewRows(step.source, chunks[i..], vectors[i..])
                   == kept + NewRows(step.source, chunks, vectors)
          {
            assert chunks[i..][1..] == chunks[i + 1..] && vectors[i..][1..] == vectors[i + 1..];
            ghost var rest := NewRows(step.source, chunks[i + 1..], vectors[i + 1..]);
            ghost var row := Row(chunks[i], vectors[i], step.source);
            assert rows + ([row] + rest) == rows + [row] + rest;
            Add(chunks[i], vectors[i], step.source);
            i := i + 1;
          }
          return false, |chunks| == |vectors|;
      }
    }

    /** A run of `learn` over its sources, in order; `failed` are the sources whose embedding was refused. */
    method LearnAll(steps: seq<Step>) returns (failed: seq<string>)
      modifies this
      ensures rows == AfterSteps(old(rows), steps, |steps|)
      ensures forall source :: source in failed <==>
                exists k :: 0 <= k < |steps| && steps[k].embedding.Refused? && steps[k].source == source
    {
      failed := [];
      for n := 0 to |steps|
        invariant rows == AfterSteps(old(rows), steps, n)
        invariant forall source :: source in failed <==>
                    exists k :: 0 <= k < n && steps[k].embedding.Refused? && steps[k].source == source
      {
        var refused, _ := Learn(steps[n]);
        if refused {
          failed := failed + [steps[n].source];
        }
      }
    }
  }

  // ---------------------------------------------------------------- The store refines a map

  lemma RowsOfCons(r: Row, rows: seq<Row>, source: string)
    ensures RowsOf([r] + rows, source) == (if r.source == source then [r] else []) + RowsOf(rows, source)
  {
    assert ([r] + rows)[1..] == rows;
  }

  lemma {:induction false} RowsOfConcat(a: seq<Row>, b: seq<Row>, source: string)
    ensures RowsOf(a + b, source) == RowsOf(a, source) + RowsOf(b, source)
  {
    if a == [] {
      assert a + b == b;
    } else {
      var r, rest := a[0], a[1..];
      RowsOfConcat(rest, b, source);
      assert a == [r] + rest && a + b == [r] + (rest + b);
      RowsOfCons(r, rest, source);
      RowsOfCons(r, rest + b, source);
    }
  }

  lemma {:induction false} WithoutLeavesOthers(rows: seq<Row>, source: string, s: string)
    ensures RowsOf(Without(rows, source), s) == if s == source then [] else RowsOf(rows, s)
  {
    if rows != [] {
      WithoutLeavesOthers(rows[1..], source, s);
      var rest := Without(rows[1..], source);
      assert ([rows[0]] + rest)[1..] == rest;
    }
  }

  lemma {:induction false} NewRowsBelongToSource(source: string, chunks: seq<string>, vectors: seq<seq<real>>,
                                                 s: string)
    ensures RowsOf(NewRows(source, chunks, vectors), s) == if s == source then NewRows(source, chunks, vectors) else []
  {
    if chunks != [] && vectors != [] {
      NewRowsBelongToSource(source, chunks[1..], vectors[1..], s);
      var rest := NewRows(source, chunks[1..], vectors[1..]);
      assert NewRows(source, chunks, vectors)[1..] == rest;
    }
  }

  /** One step replaces the rows of its own source, or leaves every row alone. */
  lemma StepReplacesItsSource(rows: seq<Row>, step: Step, s: string)
    ensures RowsOf(AfterStep(rows, step), s) ==
            if s == step.source && step.embedding.Vectors?
            then NewRows(s, ChunksFrom(step.content, 0), step.embedding.vectors)
            else RowsOf(rows, s)
  {
    if step.embedding.Vectors? {
      var written := NewRows(step.source, ChunksFrom(step.content, 0), step.embedding.vectors);
      RowsOfConcat(Without(rows, step.source), written, s);
      WithoutLeavesOthers(rows, step.source, s);
      NewRowsBelongToSource(step.source, ChunksFrom(step.content, 0), step.embedding.vectors, s);
    }
  }

  /** The last of the first `n` steps that embedded a text under source `s`. */
  function LastLearned(steps: seq<Step>, n: nat, s: string): (r: Option<Step>)
    requires n <= |steps|
    ensures r.Some? ==> r.value.source == s && r.value.embedding.Vectors?
  {
    if n == 0 then None
    else if steps[n - 1].source == s && steps[n - 1].embedding.Vectors? then Some(steps[n - 1])
    else LastLearned(steps, n - 1, s)
  }

  /** After any run a source holds the rows of the last text embedded under it; failed embeddings and other
      sources change nothing. */
  lemma {:induction false} StoreRefinesMap(rows: seq<Row>, steps: seq<Step>, n: nat, s: string)
    requires n <= |steps|
    ensures RowsOf(AfterSteps(rows, steps, n), s) ==
            match LastLearned(steps, n, s)
            case None => RowsOf(rows, s)
            case Some(step) => NewRows(s, ChunksFrom(step.content, 0), step.embedding.vectors)
  {
    if n > 0 {
      StoreRefinesMap(rows, steps, n - 1, s);
      StepReplacesItsSource(AfterSteps(rows, steps, n - 1), steps[n - 1], s);
    }
  }

  lemma {:induction false} NewRowsAre(source: string, chunks: seq<string>, vectors: seq<seq<real>>)
    ensures var rows := NewRows(source, chunks, vectors);
      && |rows| == (if |chunks| <= |vectors| then |chunks| else |vectors|)
      && forall i :: 0 <= i < |rows| ==> rows[i] == Row(chunks[i], vectors[i], source)
  {
    if chunks != [] && vectors != [] {
      NewRowsAre(source, chunks[1..], vectors[1..]);
      var rows, rest := NewRows(source, chunks, vectors), NewRows(source, chunks[1..], vectors[1..]);
      assert forall i :: 1 <= i < |rows| ==> rows[i] == rest[i - 1];
    }
  }

  /** No step from `from` up to `n` embeds a text under the source. */
  ghost predicate NoneLearned(steps: seq<Step>, from: nat, n: nat, s: string) {
    forall k :: from <= k < n && k < |steps| ==> steps[k].source != s || !steps[k].embedding.Vectors?
  }

  lemma {:induction false} LastLearnedIs(steps: seq<Step>, n: nat, s: string, k: nat)
    requires k < n <= |steps| && steps[k].source == s && steps[k].embedding.Vectors? && NoneLearned(steps, k + 1, n, s)
    ensures LastLearned(steps, n, s) == Some(steps[k])
  {
    if k < n - 1 { LastLearnedIs(steps, n - 1, s, k); }
  }

  lemma {:induction false} NothingLearned(steps: seq<Step>, n: nat, s: string)
    requires n <= |steps| && NoneLearned(steps, 0, n, s)
    ensures LastLearned(steps, n, s) == None
  {
    if n > 0 { NothingLearned(steps, n - 1, s); }
  }

  /**
   * After any run, the rows of a source whose last text was embedded by step `k`: row i pairs the characters of that
   * text from 850 i on, a thousand of them or as many as are left, with vector i, as far as there are both.
   */
  lemma RowsAre(rows: seq<Row>, steps: seq<Step>, n: nat, s: string, k: nat)
    requires k < n <= |steps| && steps[k].source == s && steps[k].embedding.Vectors? && NoneLearned(steps, k + 1, n, s)
    ensures var own, text := RowsOf(AfterSteps(rows, steps, n), s), steps[k].content;
      var vectors := steps[k].embedding.vectors;
      var chunks := (|text| + 849) / 850;
      && |own| == (if chunks <= |vectors| then chunks else |vectors|)
      && forall i :: 0 <= i < |own| ==>
           && 850 * i < |text|
           && own[i] == Row(text[850 * i..if 850 * i + 1000 <= |text| then 850 * i + 1000 else |text|], vectors[i], s)
  {
    LastLearnedIs(steps, n, s, k);
    StoreRefinesMap(rows, steps, n, s);
    LearnedRowsAre(s, steps[k].content, steps[k].embedding.vectors);
  }

  lemma LearnedRowsAre(s: string, text: string, vectors: seq<seq<real>>)
    ensures var own, chunks := NewRows(s, ChunksFrom(text, 0), vectors), (|text| + 849) / 850;
      && |own| == (if chunks <= |vectors| then chunks else |vectors|)
      && forall i :: 0 <= i < |own| ==>
           && 850 * i < |text|
           && own[i] == Row(text[850 * i..if 850 * i + 1000 <= |text| then 850 * i + 1000 else |text|], vectors[i], s)
  {
    NewRowsAre(s, ChunksFrom(text, 0), vectors);
    ChunkPositions(text, 0);
    ChunkCount(text);
  }

  /** A source under which no text was embedded keeps its rows. */
  lemma OtherRowsStay(rows: seq<Row>, steps: seq<Step>, n: nat, s: string)
    requires n <= |steps| && NoneLearned(steps, 0, n, s)
    ensures RowsOf(AfterSteps(rows, steps, n), s) == RowsOf(rows, s)
  {
    NothingLearned(steps, n, s);
    StoreRefinesMap(rows, steps, n, s);
  }

  function Texts(rows: seq<Row>): seq<string> {
    if rows == [] then [] else [rows[0].text] + Texts(rows[1..])
  }

  lemma {:induction false} TextsOfNewRows(source: string, chunks: seq<string>, vectors: seq<seq<real>>)
    ensures var n := if |chunks| <= |vectors| then |chunks| else |vectors|;
      Texts(NewRows(source, chunks, vectors)) == chunks[..n]
  {
    if chunks != [] && vectors != [] {
      TextsOfNewRows(source, chunks[1..], vectors[1..]);
      var n := if |chunks| <= |vectors| then |chunks| else |vectors|;
      assert chunks[..n] == [chunks[0]] + chunks[1..][..n - 1];
      assert NewRows(source, chunks, vectors)[1..] == NewRows(source, chunks[1..], vectors[1..]);
    }
  }

  /** What the client promises: one vector for every chunk, or no vectors at all. */
  predicate KeepsContract(step: Step) {
    step.embedding.Vectors? ==> |step.embedding.vectors| == |ChunksFrom(step.content, 0)|
  }

  lemma {:induction false} LastLearnedIsAStep(steps: seq<Step>, n: nat, s: string)
    requires n <= |steps| && LastLearned(steps, n, s).Some?
    ensures exists k :: 0 <= k < n && steps[k] == LastLearned(steps, n, s).value
  {
    if !(steps[n - 1].source == s && steps[n - 1].embedding.Vectors?) {
      LastLearnedIsAStep(steps, n - 1, s);
    } else {
      assert steps[n - 1] == LastLearned(steps, n, s).value;
    }
  }

  /** After any run with such a client, a source holds exactly the chunks of the last text embedded under it, each with
      a vector, or what it held before if there was none. */
  lemma SourceHoldsLastText(rows: seq<Row>, steps: seq<Step>, n: nat, s: string)
    requires n <= |steps| && forall k :: 0 <= k < n ==> KeepsContract(steps[k])
    ensures match LastLearned(steps, n, s)
      case None => RowsOf(AfterSteps(rows, steps, n), s) == RowsOf(rows, s)
      case Some(step) => Texts(RowsOf(AfterSteps(rows, steps, n), s)) == ChunksFrom(step.content, 0)
  {
    StoreRefinesMap(rows, steps, n, s);
    if LastLearned(steps, n, s).Some? {
      LastLearnedIsAStep(steps, n, s);
      var step := LastLearned(steps, n, s).value;
      var chunks := ChunksFrom(step.content, 0);
      TextsOfNewRows(s, chunks, step.embedding.vectors);
      assert chunks[..|chunks|] == chunks;
    }
  }

  /** For a client without that promise: a learned source holds all chunks exactly when there is a vector for each. */
  lemma SourceHoldsAllChunksIff(rows: seq<Row>, step: Step)
    requires step.embedding.Vectors?
    ensures Texts(RowsOf(AfterStep(rows, step), step.source)) == ChunksFrom(step.content, 0) <==>
            |step.embedding.vectors| >= |ChunksFrom(step.content, 0)|
  {
    var chunks := ChunksFrom(step.content, 0);
    StepReplacesItsSource(rows, step, step.source);
    TextsOfNewRows(step.source, chunks, step.embedding.vectors);
    assert chunks[..|chunks|] == chunks;
  }

  // ---------------------------------------------------------------- Inline texts

  /** The source name of an inline text, from the hexadecimal digest of its bytes. */
  function ManualSource(digest: string): string
    requires |digest| >= 10
  {
    "Manual Entry (" + digest[..10] + ")"
  }

  /** Texts whose digests differ in the first ten digits are different sources. */
  lemma ManualSourcesDiffer(d: string, d': string)
    requires |d| >= 10 && |d'| >= 10
    ensures ManualSource(d) == ManualSource(d') <==> d[..10] == d'[..10]
    ensures ManualSource(d)[..14] == "Manual Entry (" && ManualSource(d)[14..] == d[..10] + ")"
  {
    assert ManualSource(d)[14..24] == d[..10] && ManualSource(d')[14..24] == d'[..10];
  }

  /** So learning one of them never touches the rows of the other. */
  lemma InlineTextsKeepEachOther(rows: seq<Row>, step: Step, d: string, d': string)
    requires |d| >= 10 && |d'| >= 10 && d[..10] != d'[..10] && step.source == ManualSource(d)
    ensures RowsOf(AfterStep(rows, step), ManualSource(d')) == RowsOf(rows, ManualSource(d'))
  {
    ManualSourcesDiffer(d, d');
    StepReplacesItsSource(rows, step, ManualSource(d'));
  }
}
