/** Sidecars: which text was frozen, and why a fetch that is served the payload rebuilds both. */
module MavenSidecars {
  import opened Wrappers
  import opened Order
  import opened Text
  import opened MavenRepo
  import opened MavenTheorems

  // ---------------------------------------------------------------- Which sidecar text was frozen

  /** The three renderings of one payload are different texts. */
  lemma RenderingsDiffer(payload: Bytes, path: string, c: Crypto)
    requires Injective(c.encode)
    ensures var r := Renderings(payload, path, c);
      r[0].content != r[1].content && r[0].content != r[2].content && r[1].content != r[2].content
  {
    var digest := c.sha1(payload);
    var basename := digest + "  " + Basename(path) + "\n";
    var staging := digest + "  " + STAGING_PATH_PREFIX + path + "\n";
    assert |digest| < |basename| < |staging|;
  }

  /** The selection recovers exactly the frozen text: the one rendering with the digest, if there is one. */
  lemma SelectionIff(payload: Bytes, path: string, frozen: string, c: Crypto)
    requires Injective(c.encode) && Injective(c.sha256)
    ensures var candidates := Renderings(payload, path, c);
      var choice := SelectSidecar(candidates, frozen, c);
      && (forall i :: 0 <= i < 3 && c.sha256(candidates[i].content) == frozen
            ==> choice == Chosen(candidates[i].content, candidates[i].renderer))
      && (choice == NoMatch <==> forall i :: 0 <= i < 3 ==> c.sha256(candidates[i].content) != frozen)
      && choice != Ambiguous
  {
    RenderingsDiffer(payload, path, c);
    var r := Renderings(payload, path, c);
    assert r[1..][1..] == [r[2]] && r[1..][0] == r[1] && r[2..][1..] == [];
    var last := Matching([r[2]], frozen, c);
    assert last == (if c.sha256(r[2].content) == frozen then [r[2]] else []) + Matching([], frozen, c);
    assert Matching(r[1..], frozen, c) == (if c.sha256(r[1].content) == frozen then [r[1]] else []) + last;
  }

  ghost predicate Hits(r: Rendering, frozen: string, c: Crypto) {
    c.sha256(r.content) == frozen
  }

  ghost predicate TwoHit(candidates: seq<Rendering>, frozen: string, c: Crypto) {
    exists i, j :: 0 <= i < j < |candidates| && Hits(candidates[i], frozen, c) && Hits(candidates[j], frozen, c)
  }

  lemma {:induction false} MatchingAre(candidates: seq<Rendering>, frozen: string, c: Crypto)
    ensures forall r :: r in Matching(candidates, frozen, c) <==> r in candidates && Hits(r, frozen, c)
  {
    if candidates != [] {
      MatchingAre(candidates[1..], frozen, c);
      assert candidates == [candidates[0]] + candidates[1..];
    }
  }

  lemma {:induction false} TwoMatch(candidates: seq<Rendering>, frozen: string, c: Crypto)
    ensures |Matching(candidates, frozen, c)| > 1 <==> TwoHit(candidates, frozen, c)
  {
    if candidates != [] {
      var rest := candidates[1..];
      var matching := Matching(rest, frozen, c);
      TwoMatch(rest, frozen, c);
      MatchingAre(rest, frozen, c);
      if matching != [] {
        assert matching[0] in matching;
        var j :| 0 <= j < |rest| && rest[j] == matching[0];
        assert candidates[j + 1] == matching[0];
      }
      if i, j :| 0 <= i < j < |rest| && Hits(rest[i], frozen, c) && Hits(rest[j], frozen, c) {
        assert candidates[i + 1] == rest[i] && candidates[j + 1] == rest[j];
      }
    }
  }

  /** Whatever the digests are worth: a text is chosen only if it alone has the frozen digest. */
  lemma SelectionIs(candidates: seq<Rendering>, frozen: string, c: Crypto)
    ensures match SelectSidecar(candidates, frozen, c)
      case NoMatch => forall r :: r in candidates ==> c.sha256(r.content) != frozen
      case Ambiguous => TwoHit(candidates, frozen, c)
      case Chosen(content, renderer) =>
        && !TwoHit(candidates, frozen, c)
        && Rendering(renderer, content) in candidates && c.sha256(content) == frozen
  {
    MatchingAre(candidates, frozen, c);
    TwoMatch(candidates, frozen, c);
    var matching := Matching(candidates, frozen, c);
    if matching != [] { assert matching[0] in matching; }
    if r :| r in candidates && c.sha256(r.content) == frozen { assert Hits(r, frozen, c) && r in matching; }
  }

  // ---------------------------------------------------------------- A served entry is kept

  ghost predicate NoProblemAt(problems: seq<Problem>, path: string) {
    forall k :: 0 <= k < |problems| ==> !(problems[k].At? && problems[k].path == path)
  }

  /** Whenever it is asked for the entry's path, the network answers with the frozen bytes. */
  ghost predicate Serves(net: Network, e: Entry, c: Crypto) {
    forall k: nat :: net(k, e.path).Some? && c.sha256(net(k, e.path).value) == e.sha256
  }

  lemma StepElsewhere(s: State, t: State, e: Entry, path: string, c: Crypto)
    requires StepFor(s, t, e, c) && e.path != path && NoProblemAt(s.problems, path)
    ensures NoProblemAt(t.problems, path)
    ensures (path in t.store <==> path in s.store) && (path in s.store ==> t.store[path] == s.store[path])
  {
    assert forall k :: 0 <= k < |s.problems| && k < |t.problems| ==> t.problems[k] == s.problems[k] by {
      if t.problems != s.problems {
        assert forall k :: 0 <= k < |s.problems| ==> t.problems[k] == t.problems[..|s.problems|][k];
      }
    }
  }

  /** A pass whose own step for an entry adds no problem adds none at its path. */
  lemma {:induction false} PassStaysQuiet(t: seq<State>, files: seq<Entry>, n: nat, i: nat, duty: Entry -> bool,
                                          c: Crypto)
    requires n <= |files| && i < |files| && Pass(t, files, duty, c) && DistinctPaths(files)
    requires NoProblemAt(t[0].problems, files[i].path) && t[i + 1].problems == t[i].problems
    ensures NoProblemAt(t[n].problems, files[i].path)
  {
    if n > 0 {
      PassStaysQuiet(t, files, n - 1, i, duty, c);
      assert StepOfPass(t[n - 1], t[n - 1 + 1], files[n - 1], duty, c);
      if n - 1 != i {
        StepElsewhere(t[n - 1], t[n], files[n - 1], files[i].path, c);
      }
    }
  }

  lemma ServedStep(s: State, e: Entry, net: Network, c: Crypto)
    requires IsSafe(e.path) && e.kind != CHECKSUM && Serves(net, e, c)
    ensures var t := PayloadStep(s, e, net, c); t.problems == s.problems && Holds(t.store, e, c)
  {
    var answer := net(|s.requests|, e.path);
    assert answer.Some? && c.sha256(answer.value) == e.sha256;
  }

  /** `text` is one of the three that a sidecar may have: the SHA-1 alone, with the file name, or with the path under
      the historical staging directory. */
  ghost predicate SidecarText(text: Bytes, payload: Bytes, path: string, c: Crypto) {
    var sha1 := c.sha1(payload);
    || text == c.encode(sha1)
    || text == c.encode(sha1 + "  " + Basename(path) + "\n")
    || text == c.encode(sha1 + "  " + "/home/maven/repository-staging/to-ibiblio/maven2/" + path + "\n")
  }

  /** The sidecar's frozen digest is that of one of these texts. */
  ghost predicate IsRendered(payload: Bytes, path: string, frozen: string, c: Crypto) {
    exists text :: SidecarText(text, payload, path, c) && c.sha256(text) == frozen
  }

  lemma RenderingsAre(payload: Bytes, path: string, text: Bytes, c: Crypto)
    ensures SidecarText(text, payload, path, c) <==>
            exists r :: 0 <= r < 3 && Renderings(payload, path, c)[r].content == text
  {
    var r := Renderings(payload, path, c);
    if SidecarText(text, payload, path, c) {
      assert text == r[0].content || text == r[1].content || text == r[2].content;
    }
  }

  lemma RenderedSidecarIsDerived(s: State, e: Entry, payload: Entry, body: Bytes,
                                 entries: map<string, Entry>, c: Crypto)
    requires Injective(c.encode) && Injective(c.sha256)
    requires e.path == payload.path + SHA1_SUFFIX && IsRendered(body, payload.path, e.sha256, c)
    requires payload.path in entries && entries[payload.path] == payload
    requires payload.path in s.store && s.store[payload.path] == body && c.sha256(body) == payload.sha256
    ensures var t := SidecarStep(s, e, entries, c); t.problems == s.problems && Holds(t.store, e, c)
  {
    assert EndsWith(e.path, SHA1_SUFFIX) && e.path[..|e.path| - |SHA1_SUFFIX|] == payload.path;
    SelectionIff(body, payload.path, e.sha256, c);
    var text :| SidecarText(text, body, payload.path, c) && c.sha256(text) == e.sha256;
    RenderingsAre(body, payload.path, text, c);
  }

  lemma PayloadPassKeeps(files: seq<Entry>, i: nat, j: nat, s: State, net: Network, c: Crypto)
    requires i < |files| && j < |files| && DistinctPaths(files) && s.problems == []
    requires IsSafe(files[i].path) && files[i].kind != CHECKSUM && Serves(net, files[i], c) && IsSidecar(files[j])
    ensures var t := Payloads(files, |files|, s, net, c);
      && Holds(t.store, files[i], c)
      && NoProblemAt(t.problems, files[i].path) && NoProblemAt(t.problems, files[j].path)
  {
    var n, t := |files|, PayloadPass(files, s, net, c);
    PayloadPassIsPass(files, s, net, c);
    PayloadPassServes(files, i, s, net, c);
    PayloadPassSkips(files, j, s, net, c);
    PassKeepsServed(t, files, i, j, c);
    assert t[n] == Payloads(files, n, s, net, c);
  }

  lemma PassKeepsServed(t: seq<State>, files: seq<Entry>, i: nat, j: nat, c: Crypto)
    requires i < |files| && j < |files| && DistinctPaths(files) && Pass(t, files, IsPayload, c)
    requires t[0].problems == [] && Holds(t[i + 1].store, files[i], c)
    requires t[i + 1].problems == t[i].problems && t[j + 1].problems == t[j].problems
    ensures var end := t[|files|];
      && Holds(end.store, files[i], c)
      && NoProblemAt(end.problems, files[i].path) && NoProblemAt(end.problems, files[j].path)
  {
    PassKeepsHolding(t, files, i + 1, |files|, i, IsPayload, c);
    PassStaysQuiet(t, files, |files|, i, IsPayload, c);
    PassStaysQuiet(t, files, |files|, j, IsPayload, c);
  }

  lemma PayloadPassServes(files: seq<Entry>, i: nat, s: State, net: Network, c: Crypto)
    requires i < |files| && IsSafe(files[i].path) && files[i].kind != CHECKSUM && Serves(net, files[i], c)
    ensures var t := PayloadPass(files, s, net, c);
      t[i + 1].problems == t[i].problems && Holds(t[i + 1].store, files[i], c)
  {
    var t := PayloadPass(files, s, net, c);
    ServedStep(t[i], files[i], net, c);
    assert t[i + 1] == PayloadStep(t[i], files[i], net, c);
  }

  lemma PayloadPassSkips(files: seq<Entry>, j: nat, s: State, net: Network, c: Crypto)
    requires j < |files| && IsSidecar(files[j])
    ensures var t := PayloadPass(files, s, net, c); t[j + 1] == t[j]
  {}

  lemma SidecarPassSkips(files: seq<Entry>, i: nat, s: State, c: Crypto)
    requires i < |files| && !IsSidecar(files[i])
    ensures var t := SidecarPass(files, s, c); t[i + 1] == t[i]
  {}

  lemma SidecarPassDerives(files: seq<Entry>, i: nat, j: nat, s: State, body: Bytes, c: Crypto)
    requires i < |files| && j < |files| && DistinctPaths(files)
    requires Injective(c.encode) && Injective(c.sha256)
    requires IsSidecar(files[j]) && files[j].path == files[i].path + SHA1_SUFFIX
    requires IsRendered(body, files[i].path, files[j].sha256, c) && c.sha256(body) == files[i].sha256
    requires Holds(SidecarPass(files, s, c)[j].store, files[i], c)
    ensures var t := SidecarPass(files, s, c); t[j + 1].problems == t[j].problems && Holds(t[j + 1].store, files[j], c)
  {
    var t := SidecarPass(files, s, c);
    EntryAt(files, i);
    RenderedSidecarIsDerived(t[j], files[j], files[i], body, Entries(files), c);
    assert t[j + 1] == SidecarStep(t[j], files[j], Entries(files), c);
  }

  lemma SidecarPassKeeps(files: seq<Entry>, i: nat, j: nat, s: State, body: Bytes, c: Crypto)
    requires i < |files| && j < |files| && DistinctPaths(files)
    requires Injective(c.encode) && Injective(c.sha256)
    requires files[i].kind != CHECKSUM && IsSidecar(files[j]) && files[j].path == files[i].path + SHA1_SUFFIX
    requires IsRendered(body, files[i].path, files[j].sha256, c) && c.sha256(body) == files[i].sha256
    requires Holds(s.store, files[i], c)
    requires NoProblemAt(s.problems, files[i].path) && NoProblemAt(s.problems, files[j].path)
    ensures var t := Sidecars(files, |files|, s, Entries(files), c);
      && Holds(t.store, files[i], c) && Holds(t.store, files[j], c)
      && NoProblemAt(t.problems, files[i].path) && NoProblemAt(t.problems, files[j].path)
  {
    var n, t := |files|, SidecarPass(files, s, c);
    SidecarPassIsPass(files, s, c);
    SidecarPassSkips(files, i, s, c);
    PassKeepsHolding(t, files, 0, j, i, IsSidecar, c);
    SidecarPassDerives(files, i, j, s, body, c);
    PassKeepsPair(t, files, i, j, c);
    assert t[n] == Sidecars(files, n, s, Entries(files), c);
  }

  /** What a pass does not complain of and does not overwrite is still there at its end. */
  lemma PassKeepsPair(t: seq<State>, files: seq<Entry>, i: nat, j: nat, c: Crypto)
    requires i < |files| && j < |files| && DistinctPaths(files) && Pass(t, files, IsSidecar, c)
    requires Holds(t[0].store, files[i], c) && Holds(t[j + 1].store, files[j], c)
    requires NoProblemAt(t[0].problems, files[i].path) && NoProblemAt(t[0].problems, files[j].path)
    requires t[i + 1].problems == t[i].problems && t[j + 1].problems == t[j].problems
    ensures var end := t[|files|];
      && Holds(end.store, files[i], c) && Holds(end.store, files[j], c)
      && NoProblemAt(end.problems, files[i].path) && NoProblemAt(end.problems, files[j].path)
  {
    var n := |files|;
    PassKeepsHolding(t, files, 0, n, i, IsSidecar, c);
    PassKeepsHolding(t, files, j + 1, n, j, IsSidecar, c);
    PassStaysQuiet(t, files, n, i, IsSidecar, c);
    PassStaysQuiet(t, files, n, j, IsSidecar, c);
  }

  /** A payload that the network serves, and its rendered sidecar, are rebuilt and never refused, from any store. */
  lemma ServedEntriesAreRebuilt(files: seq<Entry>, i: nat, j: nat, body: Bytes, store: Files,
                                net: Network, c: Crypto)
    requires i < |files| && j < |files| && DistinctPaths(files)
    requires Injective(c.encode) && Injective(c.sha256)
    requires IsSafe(files[i].path) && files[i].kind != CHECKSUM && Serves(net, files[i], c)
    requires IsSidecar(files[j]) && files[j].path == files[i].path + SHA1_SUFFIX
    requires c.sha256(body) == files[i].sha256 && IsRendered(body, files[i].path, files[j].sha256, c)
    ensures var t := Fetched(files, State(store, [], [], []), net, c);
      && files[i].path in t.store && t.store[files[i].path] == body && Holds(t.store, files[j], c)
      && NoProblemAt(t.problems, files[i].path) && NoProblemAt(t.problems, files[j].path)
  {
    var start := State(store, [], [], []);
    PayloadPassKeeps(files, i, j, start, net, c);
    SidecarPassKeeps(files, i, j, Payloads(files, |files|, start, net, c), body, c);
  }
}
