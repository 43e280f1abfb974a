/** A fetch in plain terms: what each of its writes comes from, and when each of its problems is reported. */
module FetchMeaning {
  import opened Wrappers
  import opened Order
  import opened Text
  import opened MavenRepo
  import opened MavenTheorems
  import opened MavenSidecars
  import opened MavenMeaning

  // ---------------------------------------------------------------- Where every written byte comes from

  ghost predicate Held(store: Files, e: Entry, c: Crypto) {
    e.path in store && c.sha256(store[e.path]) == e.sha256
  }

  /** The manifest lists `base`, and the store holds the bytes that it froze. */
  ghost predicate Verified(store: Files, files: seq<Entry>, base: string, c: Crypto) {
    exists j: nat :: LastFor(files, j, base) && Held(store, files[j], c)
  }

  /** The bytes are a sidecar of verified bytes at `base`. */
  ghost predicate Derives(store: Files, files: seq<Entry>, base: string, w: Write, c: Crypto) {
    w.path == base + ".sha1" && Verified(store, files, base, c) && SidecarText(w.content, store[base], base, c)
  }

  /** The write keeps bytes that the manifest froze for that path; a checksum file is derived from verified bytes. */
  ghost predicate Earned(store: Files, files: seq<Entry>, w: Write, c: Crypto) {
    exists k :: && 0 <= k < |files| && IsSafe(w.path) && files[k].path == w.path
                && files[k].sha256 == c.sha256(w.content)
                && (files[k].kind == "checksum" ==> exists base :: Derives(store, files, base, w, c))
  }

  /** Each write was earned by the store at that moment. */
  ghost predicate AllEarned(origin: Files, writes: seq<Write>, files: seq<Entry>, c: Crypto) {
    forall i :: 0 <= i < |writes| ==> Earned(Replayed(origin, writes[..i]), files, writes[i], c)
  }

  lemma EarnedGrows(origin: Files, writes: seq<Write>, w: Write, files: seq<Entry>, c: Crypto)
    requires AllEarned(origin, writes, files, c) && Earned(Replayed(origin, writes), files, w, c)
    ensures AllEarned(origin, writes + [w], files, c)
    ensures Replayed(origin, writes + [w]) == Replayed(origin, writes)[w.path := w.content]
  {
    var all := writes + [w];
    assert all[..|writes|] == writes;
    forall i | 0 <= i < |all| ensures Earned(Replayed(origin, all[..i]), files, all[i], c) {
      if i < |writes| { assert all[..i] == writes[..i] && all[i] == writes[i]; }
    }
  }

  ghost predicate Sound(origin: Files, s: State, files: seq<Entry>, c: Crypto) {
    s.store == Replayed(origin, s.writes) && AllEarned(origin, s.writes, files, c)
  }

  /** A step that writes nothing, or one file that is earned. */
  ghost predicate WritesEarned(s: State, t: State, files: seq<Entry>, c: Crypto) {
    || (t.store == s.store && t.writes == s.writes)
    || exists w: Write ::
         t.store == s.store[w.path := w.content] && t.writes == s.writes + [w] && Earned(s.store, files, w, c)
  }

  lemma StepKeepsSound(origin: Files, s: State, t: State, files: seq<Entry>, c: Crypto)
    requires Sound(origin, s, files, c) && WritesEarned(s, t, files, c)
    ensures Sound(origin, t, files, c)
  {
    if !(t.store == s.store && t.writes == s.writes) {
      var w: Write :|
        t.store == s.store[w.path := w.content] && t.writes == s.writes + [w] && Earned(s.store, files, w, c);
      EarnedGrows(origin, s.writes, w, files, c);
    }
  }

  lemma PayloadIsEarned(s: State, files: seq<Entry>, n: nat, net: Network, c: Crypto)
    requires n < |files|
    ensures WritesEarned(s, PayloadStep(s, files[n], net, c), files, c)
  {
    var e, t := files[n], PayloadStep(s, files[n], net, c);
    if t.writes != s.writes {
      var w := Write(e.path, net(|s.requests|, e.path).value);
      assert files[n].path == w.path && Earned(s.store, files, w, c);
      assert t.store == s.store[w.path := w.content] && t.writes == s.writes + [w];
    }
  }

  lemma SidecarBase(path: string)
    requires EndsWith(path, SHA1_SUFFIX)
    ensures path == path[..|path| - |SHA1_SUFFIX|] + ".sha1"
  {}

  lemma ChosenIsText(payload: Bytes, path: string, frozen: string, c: Crypto)
    requires SelectSidecar(Renderings(payload, path, c), frozen, c).Chosen?
    ensures var text := SelectSidecar(Renderings(payload, path, c), frozen, c).content;
      SidecarText(text, payload, path, c) && c.sha256(text) == frozen
  {
    var candidates := Renderings(payload, path, c);
    SelectionIsFrozen(candidates, frozen, c);
    var choice := SelectSidecar(candidates, frozen, c);
    var chosen := Rendering(choice.renderer, choice.content);
    var r :| 0 <= r < |candidates| && candidates[r] == chosen;
    RenderingsAre(payload, path, choice.content, c);
  }

  lemma PutIsEarned(s: State, path: string, content: Bytes, files: seq<Entry>, c: Crypto)
    requires Earned(s.store, files, Write(path, content), c)
    ensures WritesEarned(s, Put(s, path, content), files, c)
  {
    var w := Write(path, content);
    assert Put(s, path, content).store == s.store[w.path := w.content];
  }

  lemma DerivedIsEarned(store: Files, files: seq<Entry>, n: nat, base: string, text: Bytes, c: Crypto)
    requires n < |files| && IsSidecar(files[n]) && files[n].sha256 == c.sha256(text)
    requires Derives(store, files, base, Write(files[n].path, text), c)
    ensures Earned(store, files, Write(files[n].path, text), c)
  {
    var w := Write(files[n].path, text);
    assert files[n].path == w.path;
  }

  /** The conditions under which the second pass writes. */
  ghost predicate Chooses(store: Files, e: Entry, entries: map<string, Entry>, c: Crypto) {
    && EndsWith(e.path, SHA1_SUFFIX)
    && var base := e.path[..|e.path| - |SHA1_SUFFIX|];
       && base in entries && base in store && c.sha256(store[base]) == entries[base].sha256
       && SelectSidecar(Renderings(store[base], base, c), e.sha256, c).Chosen?
  }

  lemma SidecarDerives(store: Files, files: seq<Entry>, e: Entry, c: Crypto)
    requires Chooses(store, e, Entries(files), c)
    ensures var base := e.path[..|e.path| - |SHA1_SUFFIX|];
      var text := SelectSidecar(Renderings(store[base], base, c), e.sha256, c).content;
      Derives(store, files, base, Write(e.path, text), c) && c.sha256(text) == e.sha256
  {
    var base := e.path[..|e.path| - |SHA1_SUFFIX|];
    SidecarBase(e.path);
    VerifiedIff(store, files, base, c);
    ChosenIsText(store[base], base, e.sha256, c);
  }

  lemma WritesIfChosen(s: State, e: Entry, entries: map<string, Entry>, c: Crypto)
    ensures var t := SidecarStep(s, e, entries, c);
      || (t.store == s.store && t.writes == s.writes)
      || (&& Chooses(s.store, e, entries, c)
          && var base := e.path[..|e.path| - |SHA1_SUFFIX|];
             t == Put(s, e.path, SelectSidecar(Renderings(s.store[base], base, c), e.sha256, c).content))
  {}

  lemma SidecarIsEarned(s: State, files: seq<Entry>, n: nat, c: Crypto)
    requires n < |files| && IsSidecar(files[n])
    ensures WritesEarned(s, SidecarStep(s, files[n], Entries(files), c), files, c)
  {
    var e, t := files[n], SidecarStep(s, files[n], Entries(files), c);
    WritesIfChosen(s, e, Entries(files), c);
    if !(t.store == s.store && t.writes == s.writes) {
      SidecarDerives(s.store, files, e, c);
      var base := e.path[..|e.path| - |SHA1_SUFFIX|];
      var text := SelectSidecar(Renderings(s.store[base], base, c), e.sha256, c).content;
      DerivedIsEarned(s.store, files, n, base, text, c);
      PutIsEarned(s, e.path, text, files, c);
    }
  }

  lemma {:induction false} PassKeepsSound(origin: Files, t: seq<State>, files: seq<Entry>, n: nat, c: Crypto)
    requires n < |t| && Sound(origin, t[0], files, c)
    requires forall k :: 0 <= k < n ==> WritesEarned(t[k], t[k + 1], files, c)
    ensures Sound(origin, t[n], files, c)
  {
    if n > 0 {
      PassKeepsSound(origin, t, files, n - 1, c);
      assert WritesEarned(t[n - 1], t[n - 1 + 1], files, c);
      StepKeepsSound(origin, t[n - 1], t[n], files, c);
    }
  }

  lemma PayloadsKeepSound(origin: Files, files: seq<Entry>, s: State, net: Network, c: Crypto)
    requires Sound(origin, s, files, c)
    ensures Sound(origin, Payloads(files, |files|, s, net, c), files, c)
  {
    var t := PayloadPass(files, s, net, c);
    forall k | 0 <= k < |files| ensures WritesEarned(t[k], t[k + 1], files, c) {
      PayloadIsEarned(t[k], files, k, net, c);
    }
    assert t[0] == s;
    PassKeepsSound(origin, t, files, |files|, c);
  }

  lemma SidecarsKeepSound(origin: Files, files: seq<Entry>, s: State, c: Crypto)
    requires Sound(origin, s, files, c)
    ensures Sound(origin, Sidecars(files, |files|, s, Entries(files), c), files, c)
  {
    var t := SidecarPass(files, s, c);
    forall k | 0 <= k < |files| ensures WritesEarned(t[k], t[k + 1], files, c) {
      if IsSidecar(files[k]) { SidecarIsEarned(t[k], files, k, c); }
    }
    assert t[0] == s;
    PassKeepsSound(origin, t, files, |files|, c);
  }

  /**
   * Every write of every fetch, failing ones too: its bytes have the digest that the manifest lists for that safe path,
   * and a checksum file is written only while the store holds the listed bytes of its payload, and is a sidecar of
   * them.
   */
  lemma FetchWritesAreEarned(files: seq<Entry>, store: Files, net: Network, c: Crypto)
    ensures var after := Fetched(files, State(store, [], [], []), net, c);
      after.store == Replayed(store, after.writes) && AllEarned(store, after.writes, files, c)
  {
    var start := State(store, [], [], []);
    PayloadsKeepSound(store, files, start, net, c);
    SidecarsKeepSound(store, files, Payloads(files, |files|, start, net, c), c);
  }

  // ---------------------------------------------------------------- When a problem is reported

  /** In the first phase: the path is unsafe, or its bytes were needed and did not come, or were not the frozen ones. */
  ghost predicate FirstComplaint(s: State, e: Entry, net: Network, c: Crypto, reason: Reason) {
    if !IsSafe(e.path) then reason == UnsafePath
    else
      && e.kind != "checksum" && !Held(s.store, e, c)
      && match net(|s.requests|, e.path)
         case None => reason == CannotFetch
         case Some(body) => reason == WrongBytes && c.sha256(body) != e.sha256
  }

  /** In the second phase: a checksum file that is not held is of another kind than SHA-1, or its payload is not
      verified, or none of the three texts is the frozen one. */
  ghost predicate SecondComplaint(s: State, e: Entry, files: seq<Entry>, c: Crypto, reason: Reason) {
    && IsSafe(e.path) && e.kind == "checksum" && !Held(s.store, e, c)
    && if !Suffixed(e.path, ".sha1") then reason == NotSha1
       else
         exists base :: && e.path == base + ".sha1"
           && if !Verified(s.store, files, base, c) then reason == NoVerifiedPayload
              else reason == NoRendering && !IsRendered(s.store[base], base, e.sha256, c)
  }

  lemma FirstStepComplains(s: State, e: Entry, net: Network, c: Crypto, q: Problem)
    ensures q in PayloadStep(s, e, net, c).problems <==>
            q in s.problems || (q.At? && q.path == e.path && FirstComplaint(s, e, net, c, q.reason))
  {}

  lemma RenderedIff(payload: Bytes, path: string, frozen: string, c: Crypto)
    requires Injective(c.encode) && Injective(c.sha256)
    ensures SelectSidecar(Renderings(payload, path, c), frozen, c).Chosen? <==> IsRendered(payload, path, frozen, c)
  {
    if SelectSidecar(Renderings(payload, path, c), frozen, c).Chosen? {
      ChosenIsText(payload, path, frozen, c);
    }
    if IsRendered(payload, path, frozen, c) {
      SelectionIff(payload, path, frozen, c);
      var text :| SidecarText(text, payload, path, c) && c.sha256(text) == frozen;
      RenderingsAre(payload, path, text, c);
    }
  }

  lemma VerifiedIff(store: Files, files: seq<Entry>, base: string, c: Crypto)
    ensures Verified(store, files, base, c) <==>
      base in Entries(files) && base in store && c.sha256(store[base]) == Entries(files)[base].sha256
  {
    EntriesAre(files, base);
    if base in Entries(files) {
      var j: nat :| LastFor(files, j, base);
    }
  }

  lemma SecondStepComplains(s: State, e: Entry, files: seq<Entry>, c: Crypto, q: Problem)
    requires IsSidecar(e) && Injective(c.encode) && Injective(c.sha256)
    ensures q in SidecarStep(s, e, Entries(files), c).problems <==>
            q in s.problems || (q.At? && q.path == e.path && SecondComplaint(s, e, files, c, q.reason))
  {
    SuffixedIs(e.path, ".sha1");
    if !Held(s.store, e, c) && EndsWith(e.path, SHA1_SUFFIX) {
      var base := e.path[..|e.path| - |SHA1_SUFFIX|];
      SidecarBase(e.path);
      assert forall other :: e.path == other + ".sha1" ==> other == base by {
        forall other | e.path == other + ".sha1" ensures other == base { assert e.path[..|other|] == other; }
      }
      VerifiedIff(s.store, files, base, c);
      if Verified(s.store, files, base, c) { RenderedIff(s.store[base], base, e.sha256, c); }
    }
  }

  ghost predicate ComplainsFirst(files: seq<Entry>, n: nat, s: State, net: Network, c: Crypto, q: Problem)
    requires n <= |files|
  {
    q.At? && exists k :: && 0 <= k < n && files[k].path == q.path
                         && FirstComplaint(Payloads(files, k, s, net, c), files[k], net, c, q.reason)
  }

  ghost predicate ComplainsSecond(files: seq<Entry>, n: nat, s: State, c: Crypto, q: Problem)
    requires n <= |files|
  {
    q.At? && exists k :: && 0 <= k < n && files[k].path == q.path
                         && SecondComplaint(Sidecars(files, k, s, Entries(files), c), files[k], files, c, q.reason)
  }

  lemma OneMoreFirst(files: seq<Entry>, n: nat, s: State, net: Network, c: Crypto, q: Problem)
    requires n < |files|
    ensures ComplainsFirst(files, n + 1, s, net, c, q) <==>
      || ComplainsFirst(files, n, s, net, c, q)
      || (q.At? && files[n].path == q.path
          && FirstComplaint(Payloads(files, n, s, net, c), files[n], net, c, q.reason))
  {}

  lemma OneMoreSecond(files: seq<Entry>, n: nat, s: State, c: Crypto, q: Problem)
    requires n < |files|
    ensures ComplainsSecond(files, n + 1, s, c, q) <==>
      || ComplainsSecond(files, n, s, c, q)
      || (q.At? && files[n].path == q.path
          && SecondComplaint(Sidecars(files, n, s, Entries(files), c), files[n], files, c, q.reason))
  {}

  lemma {:induction false} FirstPhaseComplains(files: seq<Entry>, n: nat, s: State, net: Network, c: Crypto, q: Problem)
    requires n <= |files|
    ensures q in Payloads(files, n, s, net, c).problems <==>
            q in s.problems || ComplainsFirst(files, n, s, net, c, q)
  {
    if n > 0 {
      var before := Payloads(files, n - 1, s, net, c);
      assert Payloads(files, n, s, net, c) == PayloadStep(before, files[n - 1], net, c);
      FirstPhaseComplains(files, n - 1, s, net, c, q);
      FirstStepComplains(before, files[n - 1], net, c, q);
      OneMoreFirst(files, n - 1, s, net, c, q);
    }
  }

  lemma {:induction false} SecondPhaseComplains(files: seq<Entry>, n: nat, s: State, c: Crypto, q: Problem)
    requires n <= |files| && Injective(c.encode) && Injective(c.sha256)
    ensures q in Sidecars(files, n, s, Entries(files), c).problems <==>
            q in s.problems || ComplainsSecond(files, n, s, c, q)
  {
    if n > 0 {
      SecondPhaseComplains(files, n - 1, s, c, q);
      OneMoreSecond(files, n - 1, s, c, q);
      if IsSidecar(files[n - 1]) {
        SecondStepComplains(Sidecars(files, n - 1, s, Entries(files), c), files[n - 1], files, c, q);
      }
    }
  }

  /** Every problem that a fetch reports, and no other, each with its reason at that moment. */
  lemma FetchProblemsAre(files: seq<Entry>, store: Files, net: Network, c: Crypto, q: Problem)
    requires Injective(c.encode) && Injective(c.sha256)
    ensures var start := State(store, [], [], []);
      var between := Payloads(files, |files|, start, net, c);
      q in Fetched(files, start, net, c).problems <==>
      ComplainsFirst(files, |files|, start, net, c, q) || ComplainsSecond(files, |files|, between, c, q)
  {
    var start := State(store, [], [], []);
    FirstPhaseComplains(files, |files|, start, net, c, q);
    SecondPhaseComplains(files, |files|, Payloads(files, |files|, start, net, c), c, q);
  }

  // ---------------------------------------------------------------- What is asked of the network

  /** The payloads that were needed when their turn came, in manifest order. */
  ghost function Needed(files: seq<Entry>, n: nat, s: State, net: Network, c: Crypto): seq<string>
    requires n <= |files|
  {
    if n == 0 then []
    else
      var e := files[n - 1];
      Needed(files, n - 1, s, net, c)
      + if IsSafe(e.path) && e.kind != "checksum" && !Held(Payloads(files, n - 1, s, net, c).store, e, c)
        then [e.path] else []
  }

  /** Each is asked for once, and nothing else. */
  lemma {:induction false} RequestsAre(files: seq<Entry>, n: nat, s: State, net: Network, c: Crypto)
    requires n <= |files|
    ensures Payloads(files, n, s, net, c).requests == s.requests + Needed(files, n, s, net, c)
  {
    if n > 0 { RequestsAre(files, n - 1, s, net, c); }
  }
}
