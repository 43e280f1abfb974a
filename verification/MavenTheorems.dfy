/** What fetch and verify guarantee, against every network and in failing runs too. */
module MavenTheorems {
  import opened Wrappers
  import opened Order
  import opened Text
  import opened MavenRepo

  // ---------------------------------------------------------------- One step

  lemma {:induction false} MatchingHas(candidates: seq<Rendering>, frozen: string, c: Crypto)
    ensures forall r :: r in Matching(candidates, frozen, c) <==> r in candidates && c.sha256(r.content) == frozen
  {
    if candidates != [] { MatchingHas(candidates[1..], frozen, c); }
  }

  /** A selected sidecar is one of the candidates, and has the frozen digest. */
  lemma SelectionIsFrozen(candidates: seq<Rendering>, frozen: string, c: Crypto)
    requires SelectSidecar(candidates, frozen, c).Chosen?
    ensures var r := SelectSidecar(candidates, frozen, c);
      Rendering(r.renderer, r.content) in candidates && c.sha256(r.content) == frozen
  {
    var matching := Matching(candidates, frozen, c);
    MatchingHas(candidates, frozen, c);
    assert matching[0] in matching;
  }

  /** The step for `e` wrote that entry's bytes, at that entry's path. */
  ghost predicate Wrote(s: State, t: State, e: Entry, c: Crypto) {
    && IsSafe(e.path) && Holds(t.store, e, c)
    && t.store == s.store[e.path := t.store[e.path]]
    && t.writes == s.writes + [Write(e.path, t.store[e.path])]
  }

  /** All that a step for `e` may do: write its bytes, ask for its path if it is a payload, and complain of it. */
  ghost predicate StepFor(s: State, t: State, e: Entry, c: Crypto) {
    && ((t.store == s.store && t.writes == s.writes) || Wrote(s, t, e, c))
    && (t.requests == s.requests || (IsSafe(e.path) && e.kind != CHECKSUM && t.requests == s.requests + [e.path]))
    && (t.problems == s.problems || (|t.problems| == |s.problems| + 1 && t.problems[..|s.problems|] == s.problems
                                     && t.problems[|s.problems|].At? && t.problems[|s.problems|].path == e.path))
  }

  lemma PayloadStepIsStep(s: State, e: Entry, net: Network, c: Crypto)
    ensures var t := PayloadStep(s, e, net, c);
      && StepFor(s, t, e, c)
      && (t.problems == s.problems ==> IsSafe(e.path) && (e.kind != CHECKSUM ==> Holds(t.store, e, c)))
  {}

  lemma SidecarStepIsStep(s: State, e: Entry, entries: map<string, Entry>, c: Crypto)
    requires IsSidecar(e)
    ensures var t := SidecarStep(s, e, entries, c);
      && StepFor(s, t, e, c) && t.requests == s.requests
      && (t.problems == s.problems ==> Holds(t.store, e, c))
  {
    if !Holds(s.store, e, c) && EndsWith(e.path, SHA1_SUFFIX) {
      var payload := e.path[..|e.path| - |SHA1_SUFFIX|];
      if payload in s.store {
        var candidates := Renderings(s.store[payload], payload, c);
        if SelectSidecar(candidates, e.sha256, c).Chosen? {
          SelectionIsFrozen(candidates, e.sha256, c);
        }
      }
    }
  }

  // ---------------------------------------------------------------- A pass as a sequence of states

  /** The states of a pass over `files`, in which entries of `duty` hold after a step without a problem. */
  ghost predicate Pass(t: seq<State>, files: seq<Entry>, duty: Entry -> bool, c: Crypto) {
    |t| == |files| + 1 && forall k :: 0 <= k < |files| ==> StepOfPass(t[k], t[k + 1], files[k], duty, c)
  }

  ghost predicate StepOfPass(s: State, t: State, e: Entry, duty: Entry -> bool, c: Crypto) {
    StepFor(s, t, e, c) && (t.problems == s.problems && duty(e) ==> Holds(t.store, e, c))
  }

  predicate IsPayload(e: Entry) {
    e.kind != CHECKSUM
  }

  function PayloadPass(files: seq<Entry>, s: State, net: Network, c: Crypto): (t: seq<State>)
    ensures |t| == |files| + 1 && forall k :: 0 <= k <= |files| ==> t[k] == Payloads(files, k, s, net, c)
  {
    seq(|files| + 1, k requires 0 <= k <= |files| => Payloads(files, k, s, net, c))
  }

  function SidecarPass(files: seq<Entry>, s: State, c: Crypto): (t: seq<State>)
    ensures |t| == |files| + 1 && forall k :: 0 <= k <= |files| ==> t[k] == Sidecars(files, k, s, Entries(files), c)
  {
    seq(|files| + 1, k requires 0 <= k <= |files| => Sidecars(files, k, s, Entries(files), c))
  }

  lemma PayloadPassIsPass(files: seq<Entry>, s: State, net: Network, c: Crypto)
    ensures var t := PayloadPass(files, s, net, c);
      && Pass(t, files, IsPayload, c)
      && forall k :: 0 <= k < |files| && t[k + 1].problems == t[k].problems ==> IsSafe(files[k].path)
  {
    var t := PayloadPass(files, s, net, c);
    forall k | 0 <= k < |files|
      ensures StepOfPass(t[k], t[k + 1], files[k], IsPayload, c)
      ensures t[k + 1].problems == t[k].problems ==> IsSafe(files[k].path)
    {
      PayloadStepIsStep(t[k], files[k], net, c);
    }
  }

  lemma SidecarPassIsPass(files: seq<Entry>, s: State, c: Crypto)
    ensures Pass(SidecarPass(files, s, c), files, IsSidecar, c)
  {
    var t := SidecarPass(files, s, c);
    forall k | 0 <= k < |files| ensures StepOfPass(t[k], t[k + 1], files[k], IsSidecar, c) {
      if IsSidecar(files[k]) {
        SidecarStepIsStep(t[k], files[k], Entries(files), c);
      }
    }
  }

  // ---------------------------------------------------------------- Only frozen bytes are written

  /** The bytes that one of the entries froze, at that entry's path. */
  ghost predicate Frozen(w: Write, files: seq<Entry>, c: Crypto) {
    IsSafe(w.path) && exists i :: 0 <= i < |files| && files[i].path == w.path && files[i].sha256 == c.sha256(w.content)
  }

  ghost predicate IsPayloadPath(path: string, files: seq<Entry>) {
    IsSafe(path) && exists i :: 0 <= i < |files| && files[i].path == path && files[i].kind != CHECKSUM
  }

  /** A store with some writes applied in turn. */
  function Replayed(store: Files, writes: seq<Write>): Files {
    if writes == [] then store
    else
      var w := writes[|writes| - 1];
      Replayed(store, writes[..|writes| - 1])[w.path := w.content]
  }

  /** The store is its origin with the logged writes; these are frozen bytes, and only payloads were asked for. */
  ghost predicate Faithful(origin: Files, s: State, files: seq<Entry>, c: Crypto) {
    && s.store == Replayed(origin, s.writes)
    && (forall i :: 0 <= i < |s.writes| ==> Frozen(s.writes[i], files, c))
    && (forall i :: 0 <= i < |s.requests| ==> IsPayloadPath(s.requests[i], files))
  }

  lemma StepKeepsWrites(origin: Files, s: State, t: State, files: seq<Entry>, n: nat, c: Crypto)
    requires n < |files| && Faithful(origin, s, files, c) && StepFor(s, t, files[n], c)
    ensures t.store == Replayed(origin, t.writes)
    ensures forall i :: 0 <= i < |t.writes| ==> Frozen(t.writes[i], files, c)
  {
    var e := files[n];
    if !(t.store == s.store && t.writes == s.writes) {
      var w, last := Write(e.path, t.store[e.path]), |t.writes| - 1;
      assert t.writes[..last] == s.writes && t.writes[last] == w;
      assert Frozen(w, files, c);
      forall i | 0 <= i < |t.writes| ensures Frozen(t.writes[i], files, c) {
        if i < last { assert t.writes[i] == s.writes[i]; }
      }
    }
  }

  lemma StepKeepsRequests(s: State, t: State, files: seq<Entry>, n: nat, c: Crypto, i: nat)
    requires n < |files| && StepFor(s, t, files[n], c) && i < |t.requests|
    requires forall k :: 0 <= k < |s.requests| ==> IsPayloadPath(s.requests[k], files)
    ensures IsPayloadPath(t.requests[i], files)
  {
    if i < |s.requests| { assert t.requests[i] == s.requests[i]; }
  }

  lemma StepKeepsFaithful(origin: Files, s: State, t: State, files: seq<Entry>, n: nat, c: Crypto)
    requires n < |files| && Faithful(origin, s, files, c) && StepFor(s, t, files[n], c)
    ensures Faithful(origin, t, files, c)
  {
    StepKeepsWrites(origin, s, t, files, n, c);
    forall i | 0 <= i < |t.requests| ensures IsPayloadPath(t.requests[i], files) {
      StepKeepsRequests(s, t, files, n, c, i);
    }
  }

  lemma {:induction false} PassIsFaithful(origin: Files, t: seq<State>, files: seq<Entry>, n: nat, duty: Entry -> bool,
                                          c: Crypto)
    requires n <= |files| && Pass(t, files, duty, c) && Faithful(origin, t[0], files, c)
    ensures Faithful(origin, t[n], files, c)
  {
    if n > 0 {
      PassIsFaithful(origin, t, files, n - 1, duty, c);
      assert StepOfPass(t[n - 1], t[n - 1 + 1], files[n - 1], duty, c);
      StepKeepsFaithful(origin, t[n - 1], t[n], files, n - 1, c);
    }
  }

  /** Whatever the network does, and whether or not it succeeds, fetch writes only frozen bytes at their own paths. */
  lemma FetchWritesOnlyFrozenBytes(files: seq<Entry>, store: Files, net: Network, c: Crypto)
    ensures Faithful(store, Fetched(files, State(store, [], [], []), net, c), files, c)
  {
    var first := PayloadPass(files, State(store, [], [], []), net, c);
    PayloadPassIsPass(files, State(store, [], [], []), net, c);
    PassIsFaithful(store, first, files, |files|, IsPayload, c);
    SidecarPassIsPass(files, first[|files|], c);
    PassIsFaithful(store, SidecarPass(files, first[|files|], c), files, |files|, IsSidecar, c);
  }

  lemma {:induction false} ReplayedElsewhere(store: Files, writes: seq<Write>, path: string)
    requires forall i :: 0 <= i < |writes| ==> writes[i].path != path
    ensures path in Replayed(store, writes) <==> path in store
    ensures path in store ==> Replayed(store, writes)[path] == store[path]
  {
    if writes != [] { ReplayedElsewhere(store, writes[..|writes| - 1], path); }
  }

  /** Files outside the manifest are left as they are. */
  lemma FetchLeavesOthersAlone(files: seq<Entry>, store: Files, net: Network, c: Crypto, path: string)
    requires forall i :: 0 <= i < |files| ==> files[i].path != path
    ensures var after := Fetched(files, State(store, [], [], []), net, c).store;
      (path in after <==> path in store) && (path in store ==> after[path] == store[path])
  {
    var t := Fetched(files, State(store, [], [], []), net, c);
    FetchWritesOnlyFrozenBytes(files, store, net, c);
    forall i | 0 <= i < |t.writes| ensures t.writes[i].path != path {
      assert Frozen(t.writes[i], files, c);
    }
    ReplayedElsewhere(store, t.writes, path);
  }

  // ---------------------------------------------------------------- A run without problems is complete

  ghost predicate DistinctPaths(files: seq<Entry>) {
    forall i, j :: 0 <= i < j < |files| ==> files[i].path != files[j].path
  }

  lemma PermutedPathsDistinct(a: seq<Entry>, b: seq<Entry>)
    requires DistinctPaths(a) && multiset(a) == multiset(b)
    ensures DistinctPaths(b)
  {
    assert Distinct(a);
    DistinctSurvivesPermutation(a, b);
    forall i, j | 0 <= i < j < |b| ensures b[i].path != b[j].path {
      assert b[i] in multiset(b) && b[j] in multiset(b);
      assert b[i] in a && b[j] in a;
    }
  }

  lemma SortedPathsDistinctIff(files: seq<Entry>)
    ensures DistinctPaths(SortBy(files, PathLeq)) <==> DistinctPaths(files)
  {
    SortPermutes(files, PathLeq);
    if DistinctPaths(files) { PermutedPathsDistinct(files, SortBy(files, PathLeq)); }
    if DistinctPaths(SortBy(files, PathLeq)) { PermutedPathsDistinct(SortBy(files, PathLeq), files); }
  }

  /** What holds keeps holding. */
  lemma {:induction false} PassKeepsHolding(t: seq<State>, files: seq<Entry>, lo: nat, hi: nat, i: nat,
                                            duty: Entry -> bool, c: Crypto)
    requires lo <= hi <= |files| && i < |files| && Pass(t, files, duty, c) && DistinctPaths(files)
    requires Holds(t[lo].store, files[i], c)
    ensures Holds(t[hi].store, files[i], c)
  {
    if lo < hi {
      PassKeepsHolding(t, files, lo, hi - 1, i, duty, c);
      assert StepOfPass(t[hi - 1], t[hi - 1 + 1], files[hi - 1], duty, c);
    }
  }

  lemma {:induction false} ProblemsGrow(t: seq<State>, files: seq<Entry>, lo: nat, hi: nat, duty: Entry -> bool,
                                        c: Crypto)
    requires lo <= hi <= |files| && Pass(t, files, duty, c)
    ensures |t[lo].problems| <= |t[hi].problems|
    ensures |t[lo].problems| == |t[hi].problems| ==> t[lo].problems == t[hi].problems
  {
    if lo < hi {
      ProblemsGrow(t, files, lo, hi - 1, duty, c);
      assert StepOfPass(t[hi - 1], t[hi - 1 + 1], files[hi - 1], duty, c);
    }
  }

  /** In a pass that adds no problem no step does. */
  lemma CleanStep(t: seq<State>, files: seq<Entry>, i: nat, duty: Entry -> bool, c: Crypto)
    requires i < |files| && Pass(t, files, duty, c) && |t[|files|].problems| == |t[0].problems|
    ensures t[i + 1].problems == t[i].problems
  {
    ProblemsGrow(t, files, 0, i, duty, c);
    ProblemsGrow(t, files, i, i + 1, duty, c);
    ProblemsGrow(t, files, i + 1, |files|, duty, c);
  }

  /** A pass that adds no problem leaves every entry of its duty holding. */
  lemma CleanPassHolds(t: seq<State>, files: seq<Entry>, i: nat, duty: Entry -> bool, c: Crypto)
    requires i < |files| && Pass(t, files, duty, c) && DistinctPaths(files) && duty(files[i])
    requires |t[|files|].problems| == |t[0].problems|
    ensures Holds(t[|files|].store, files[i], c)
  {
    CleanStep(t, files, i, duty, c);
    assert StepOfPass(t[i], t[i + 1], files[i], duty, c);
    PassKeepsHolding(t, files, i + 1, |files|, i, duty, c);
  }

  ghost predicate EntriesHold(store: Files, files: seq<Entry>, c: Crypto) {
    forall i :: 0 <= i < |files| ==> IsSafe(files[i].path) && Holds(store, files[i], c)
  }

  /** The store is exactly the frozen set: safe paths, frozen bytes, nothing missing and nothing more. */
  ghost predicate Exact(store: Files, files: seq<Entry>, c: Crypto) {
    EntriesHold(store, files, c) && forall p :: p in store ==> exists i :: 0 <= i < |files| && files[i].path == p
  }

  /** A fetch that reports nothing leaves every entry safe and holding. */
  lemma CleanFetchHolds(files: seq<Entry>, store: Files, net: Network, c: Crypto)
    requires DistinctPaths(files) && Fetched(files, State(store, [], [], []), net, c).problems == []
    ensures EntriesHold(Fetched(files, State(store, [], [], []), net, c).store, files, c)
  {
    var n, start := |files|, State(store, [], [], []);
    var first := PayloadPass(files, start, net, c);
    var second := SidecarPass(files, first[n], c);
    PayloadPassIsPass(files, start, net, c);
    SidecarPassIsPass(files, first[n], c);
    ProblemsGrow(second, files, 0, n, IsSidecar, c);
    forall i | 0 <= i < n ensures IsSafe(files[i].path) && Holds(second[n].store, files[i], c) {
      CleanStep(first, files, i, IsPayload, c);
      if IsPayload(files[i]) {
        CleanPassHolds(first, files, i, IsPayload, c);
        PassKeepsHolding(second, files, 0, n, i, IsSidecar, c);
      } else {
        CleanPassHolds(second, files, i, IsSidecar, c);
      }
    }
  }

  /** From a store without foreign files, a fetch that reports nothing has rebuilt exactly the frozen set. */
  lemma FetchReconstructs(files: seq<Entry>, store: Files, net: Network, c: Crypto)
    requires DistinctPaths(files)
    requires forall p :: p in store ==> exists i :: 0 <= i < |files| && files[i].path == p
    requires Fetched(files, State(store, [], [], []), net, c).problems == []
    ensures Exact(Fetched(files, State(store, [], [], []), net, c).store, files, c)
  {
    var after := Fetched(files, State(store, [], [], []), net, c);
    CleanFetchHolds(files, store, net, c);
    forall p | p in after.store ensures exists i :: 0 <= i < |files| && files[i].path == p {
      if !exists i :: 0 <= i < |files| && files[i].path == p {
        FetchLeavesOthersAlone(files, store, net, c, p);
      }
    }
  }

  // ---------------------------------------------------------------- A second run does nothing

  lemma {:induction false} IdlePayloads(files: seq<Entry>, n: nat, s: State, net: Network, c: Crypto)
    requires n <= |files| && EntriesHold(s.store, files, c)
    ensures Payloads(files, n, s, net, c) == s
  {
    if n > 0 { IdlePayloads(files, n - 1, s, net, c); }
  }

  lemma {:induction false} IdleSidecars(files: seq<Entry>, n: nat, s: State, entries: map<string, Entry>, c: Crypto)
    requires n <= |files| && EntriesHold(s.store, files, c)
    ensures Sidecars(files, n, s, entries, c) == s
  {
    if n > 0 {
      IdleSidecars(files, n - 1, s, entries, c);
      assert Holds(s.store, files[n - 1], c);
    }
  }

  /** Fetching into a store in which every entry holds asks for nothing, writes nothing and reports nothing. */
  lemma FetchIsIdleWhenHeld(files: seq<Entry>, store: Files, net: Network, c: Crypto)
    requires EntriesHold(store, files, c)
    ensures Fetched(files, State(store, [], [], []), net, c) == State(store, [], [], [])
  {
    IdlePayloads(files, |files|, State(store, [], [], []), net, c);
    IdleSidecars(files, |files|, State(store, [], [], []), Entries(files), c);
  }

  /** From any store, a successful fetch leaves nothing for the next one to do, even on another network. */
  lemma SecondFetchIsIdle(files: seq<Entry>, store: Files, net: Network, later: Network, c: Crypto)
    requires DistinctPaths(files)
    requires Fetched(files, State(store, [], [], []), net, c).problems == []
    ensures var after := Fetched(files, State(store, [], [], []), net, c).store;
      Fetched(files, State(after, [], [], []), later, c) == State(after, [], [], [])
  {
    CleanFetchHolds(files, store, net, c);
    FetchIsIdleWhenHeld(files, Fetched(files, State(store, [], [], []), net, c).store, later, c);
  }

  // ---------------------------------------------------------------- The network cannot choose the bytes

  ghost predicate Injective<A(!new), B(!new)>(f: A -> B) {
    forall x, y :: f(x) == f(y) ==> x == y
  }

  ghost predicate HasPath(files: seq<Entry>, path: string) {
    exists i :: 0 <= i < |files| && files[i].path == path
  }

  ghost predicate AgreeAt(a: Files, b: Files, path: string) {
    (path in a <==> path in b) && (path in a && path in b ==> a[path] == b[path])
  }

  lemma ForeignFilesStay(files: seq<Entry>, store: Files, net: Network, c: Crypto, path: string)
    requires !HasPath(files, path)
    ensures AgreeAt(Fetched(files, State(store, [], [], []), net, c).store, store, path)
  {
    FetchLeavesOthersAlone(files, store, net, c, path);
  }

  /** Two successful fetches, from stores with the same foreign files, end in the same store, whatever their networks
      answered and whatever else was there before. */
  lemma FetchIsDetermined(files: seq<Entry>, a: Files, b: Files, net: Network, other: Network, c: Crypto)
    requires DistinctPaths(files) && Injective(c.sha256)
    requires forall path :: !HasPath(files, path) ==> AgreeAt(a, b, path)
    requires Fetched(files, State(a, [], [], []), net, c).problems == []
    requires Fetched(files, State(b, [], [], []), other, c).problems == []
    ensures Fetched(files, State(a, [], [], []), net, c).store == Fetched(files, State(b, [], [], []), other, c).store
  {
    var x := Fetched(files, State(a, [], [], []), net, c).store;
    var y := Fetched(files, State(b, [], [], []), other, c).store;
    CleanFetchHolds(files, a, net, c);
    CleanFetchHolds(files, b, other, c);
    forall path ensures AgreeAt(x, y, path) {
      if HasPath(files, path) {
        assert AgreeAt(x, y, path);
      } else {
        ForeignFilesStay(files, a, net, c, path);
        ForeignFilesStay(files, b, other, c, path);
        assert AgreeAt(a, b, path);
      }
    }
    SameEverywhere(x, y);
  }

  lemma SameEverywhere(a: Files, b: Files)
    requires forall path :: AgreeAt(a, b, path)
    ensures a == b
  {
    assert forall path :: path in a ==> AgreeAt(a, b, path);
    assert forall path :: path in b ==> AgreeAt(a, b, path);
  }

  // ---------------------------------------------------------------- Verify

  /** Where the entry kept for a path comes from. */
  lemma {:induction false} IndexOf(files: seq<Entry>, path: string) returns (i: nat)
    requires path in Entries(files)
    ensures i < |files| && files[i].path == path && files[i] == Entries(files)[path]
  {
    var n := |files| - 1;
    if files[n].path == path {
      i := n;
    } else {
      i := IndexOf(files[..n], path);
    }
  }

  lemma {:induction false} PathIsListed(files: seq<Entry>, i: nat)
    requires i < |files|
    ensures files[i].path in Entries(files)
  {
    var n := |files| - 1;
    if i < n {
      PathIsListed(files[..n], i);
    }
  }

  lemma {:induction false} EntryProblemsIff(store: Files, entries: map<string, Entry>, paths: seq<string>, n: nat,
                                            c: Crypto)
    requires n <= |paths| && forall i :: 0 <= i < |paths| ==> paths[i] in entries
    ensures EntryProblems(store, entries, paths, n, c) == []
       <==> forall i :: 0 <= i < n ==> EntryProblem(store, paths[i], entries[paths[i]].sha256, c) == None
  {
    if n > 0 { EntryProblemsIff(store, entries, paths, n - 1, c); }
  }

  lemma SortedPathsAre(paths: set<string>)
    ensures forall p :: p in SortedPaths(paths) <==> p in paths
  {
    AscendingElements(paths);
  }

  /** The store keeps at `path`, a safe path, the bytes that the entry for it froze. */
  ghost predicate Keeps(store: Files, entries: map<string, Entry>, path: string, c: Crypto)
    requires path in entries
  {
    EntryProblem(store, path, entries[path].sha256, c) == None
  }

  /** The store is exactly what the entries freeze, path by path. */
  ghost predicate ExactEntries(store: Files, entries: map<string, Entry>, c: Crypto) {
    (forall p :: p in store ==> p in entries) && forall p :: p in entries ==> Keeps(store, entries, p, c)
  }

  lemma StoreProblemsIff(store: Files, m: Manifest, c: Crypto)
    ensures StoreProblems(store, m, c) == [] <==> ExactEntries(store, Entries(m.files), c)
  {
    var entries := Entries(m.files);
    EveryEntryKeptIff(store, entries, c);
  }

  lemma EveryEntryKeptIff(store: Files, entries: map<string, Entry>, c: Crypto)
    ensures var paths := SortedPaths(entries.Keys);
      EntryProblems(store, entries, paths, |paths|, c) == []
      <==> forall p :: p in entries ==> Keeps(store, entries, p, c)
  {
    var paths := SortedPaths(entries.Keys);
    SortedPathsAre(entries.Keys);
    EntryProblemsIff(store, entries, paths, |paths|, c);
    if EntryProblems(store, entries, paths, |paths|, c) == [] {
      forall p | p in entries ensures Keeps(store, entries, p, c) {
        assert p in paths;
      }
    }
  }

  lemma EntryAt(files: seq<Entry>, i: nat)
    requires DistinctPaths(files) && i < |files|
    ensures files[i].path in Entries(files) && Entries(files)[files[i].path] == files[i]
  {
    PathIsListed(files, i);
    var k := IndexOf(files, files[i].path);
  }

  lemma ExactKeepsEntries(store: Files, files: seq<Entry>, c: Crypto)
    requires Exact(store, files, c)
    ensures ExactEntries(store, Entries(files), c)
  {
    forall p | p in Entries(files) ensures Keeps(store, Entries(files), p, c) {
      var i := IndexOf(files, p);
      assert Holds(store, files[i], c);
    }
    forall p | p in store ensures p in Entries(files) {
      var i :| 0 <= i < |files| && files[i].path == p;
      PathIsListed(files, i);
    }
  }

  lemma KeptEntriesAreExact(store: Files, files: seq<Entry>, c: Crypto)
    requires DistinctPaths(files) && ExactEntries(store, Entries(files), c)
    ensures Exact(store, files, c)
  {
    forall i | 0 <= i < |files| ensures IsSafe(files[i].path) && Holds(store, files[i], c) {
      EntryAt(files, i);
      assert Keeps(store, Entries(files), files[i].path, c);
    }
    forall p | p in store ensures exists i :: 0 <= i < |files| && files[i].path == p {
      var i := IndexOf(files, p);
    }
  }

  /** With distinct paths, that is the exact store of the list. */
  lemma ExactEntriesIff(store: Files, files: seq<Entry>, c: Crypto)
    requires DistinctPaths(files)
    ensures ExactEntries(store, Entries(files), c) <==> Exact(store, files, c)
  {
    if Exact(store, files, c) { ExactKeepsEntries(store, files, c); }
    if ExactEntries(store, Entries(files), c) { KeptEntriesAreExact(store, files, c); }
  }

  lemma VerifyCases(store: Files, m: Manifest, requireAttested: bool, c: Crypto)
    ensures Verify(store, m, requireAttested, c) == []
       <==> && StoreProblems(store, m, c) == [] && ContentDigest(m.files, c) == m.contentDigest
            && (requireAttested ==> AttestationProblems(m) == [])
  {}

  /** Verify reports nothing exactly when the store is the frozen set, with the right digest, attested as asked. */
  lemma VerifyIff(store: Files, m: Manifest, requireAttested: bool, c: Crypto)
    ensures Verify(store, m, requireAttested, c) == []
       <==> && ExactEntries(store, Entries(m.files), c) && ContentDigest(m.files, c) == m.contentDigest
            && (requireAttested ==> m.attested && forall i :: 0 <= i < |m.files| ==> !NeedsAttestation(m.files[i]))
  {
    StoreProblemsIff(store, m, c);
    VerifyCases(store, m, requireAttested, c);
  }

  /** What fetch rebuilds, verify accepts, if there was no foreign file: the two agree on the frozen set. */
  lemma FetchThenVerify(m: Manifest, store: Files, net: Network, c: Crypto)
    requires DistinctPaths(m.files)
    requires Fetched(m.files, State(store, [], [], []), net, c).problems == []
    ensures var after := Fetched(m.files, State(store, [], [], []), net, c).store;
      Verify(after, m, false, c) == []
      <==> ContentDigest(m.files, c) == m.contentDigest && forall path :: path in store ==> HasPath(m.files, path)
  {
    var after := Fetched(m.files, State(store, [], [], []), net, c).store;
    CleanFetchHolds(m.files, store, net, c);
    forall path | !HasPath(m.files, path) ensures path in after <==> path in store {
      ForeignFilesStay(m.files, store, net, c, path);
    }
    ExactEntriesIff(after, m.files, c);
    VerifyIff(after, m, false, c);
  }
}
