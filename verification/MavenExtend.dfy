/** Growing the manifest by files that are downloaded with the checksum published for them. */
module MavenExtend {
  import opened Wrappers
  import opened Order
  import opened Text
  import opened MavenRepo
  import opened MavenTheorems
  import opened MavenSidecars

  /** The first word of a published checksum, in lower case; none if it has no word, which raises an exception. */
  type FirstWord = Bytes -> Option<string>

  /** The loop's state: the repository, what was added to the manifest, and whether an exception ended it. */
  datatype Growth = Growth(store: Files, requests: seq<string>, added: seq<Entry>, problems: seq<Problem>, raised: bool)

  function EntryFor(path: string, content: Bytes, c: Crypto): Entry {
    Entry(path, KindOf(path), c.sha256(content), true)
  }

  function Sidecar(path: string): string {
    path + SHA1_SUFFIX
  }

  function Refuse(g: Growth, path: string, reason: Reason): Growth {
    g.(problems := g.problems + [At(path, reason)])
  }

  /** Keeps a payload with the bare rendering of its checksum. */
  function Keep(g: Growth, path: string, body: Bytes, c: Crypto): Growth {
    g.(store := g.store[path := body][Sidecar(path) := Bare(body, c)],
       added := g.added + [EntryFor(path, body, c), EntryFor(Sidecar(path), Bare(body, c), c)])
  }

  function Grow(g: Growth, path: string, net: Network, firstWord: FirstWord, c: Crypto): Growth {
    if g.raised then g
    else if !IsSafe(path) then Refuse(g, path, UnsafePath)
    else
      var asked := g.(requests := g.requests + [path]);
      match net(|g.requests|, path)
      case None => Refuse(asked, path, CannotFetch)
      case Some(body) =>
        var both := asked.(requests := asked.requests + [Sidecar(path)]);
        match net(|asked.requests|, Sidecar(path))
        case None => Refuse(both, path, CannotFetch)
        case Some(text) =>
          match firstWord(text)
          case None => both.(raised := true)
          case Some(word) =>
            if c.sha1(body) != word then Refuse(both, path, Sha1Differs) else Keep(both, path, body, c)
  }

  function Grown(g: Growth, paths: seq<string>, n: nat, net: Network, firstWord: FirstWord, c: Crypto): Growth
    requires n <= |paths|
  {
    if n == 0 then g else Grow(Grown(g, paths, n - 1, net, firstWord, c), paths[n - 1], net, firstWord, c)
  }

  function KnownPaths(files: seq<Entry>): set<string> {
    set i | 0 <= i < |files| :: files[i].path
  }

  function NewPaths(m: Manifest, paths: set<string>): seq<string> {
    SortedPaths(paths - KnownPaths(m.files))
  }

  /** The manifest with the added entries, its digest and attestation derived anew. */
  function WithAdded(m: Manifest, added: seq<Entry>, c: Crypto): Manifest {
    var files := SortBy(m.files + added, PathLeq);
    Manifest(files, ContentDigest(files, c), Unattested(files) == 0)
  }

  /** The manifest is rewritten only when nothing went wrong. */
  function ManifestAfter(m: Manifest, g: Growth, c: Crypto): Manifest {
    if g.raised || g.problems != [] then m else WithAdded(m, g.added, c)
  }

  /** One path: its payload and its published checksum are downloaded, and kept if they agree. */
  method ExtendOne(repo: Repository, path: string, added: seq<Entry>, problems: seq<Problem>, net: Network,
                   firstWord: FirstWord, c: Crypto)
    returns (added': seq<Entry>, problems': seq<Problem>, raised: bool)
    modifies repo
    ensures Growth(repo.store, repo.requests, added', problems', raised)
         == Grow(Growth(old(repo.store), old(repo.requests), added, problems, false), path, net, firstWord, c)
  {
    added', problems', raised := added, problems, false;
    if !IsSafe(path) {
      problems' := problems + [At(path, UnsafePath)];
      return;
    }
    var body := net(|repo.requests|, path);
    repo.requests := repo.requests + [path];
    if body == None {
      problems' := problems + [At(path, CannotFetch)];
      return;
    }
    var text := net(|repo.requests|, Sidecar(path));
    repo.requests := repo.requests + [Sidecar(path)];
    if text == None {
      problems' := problems + [At(path, CannotFetch)];
      return;
    }
    var word := firstWord(text.value);
    if word == None {
      raised := true;
    } else if c.sha1(body.value) != word.value {
      problems' := problems + [At(path, Sha1Differs)];
    } else {
      repo.WriteFile(path, body.value);
      repo.WriteFile(Sidecar(path), Bare(body.value, c));
      added' := added + [EntryFor(path, body.value, c), EntryFor(Sidecar(path), Bare(body.value, c), c)];
    }
  }

  method Extend(repo: Repository, m: Manifest, paths: set<string>, net: Network, firstWord: FirstWord, c: Crypto)
    returns (extended: Manifest, problems: seq<Problem>, raised: bool)
    modifies repo
    ensures var news := NewPaths(m, paths);
      var g := Grown(Growth(old(repo.store), old(repo.requests), [], [], false), news, |news|, net, firstWord, c);
      && repo.store == g.store && repo.requests == g.requests && problems == g.problems && raised == g.raised
      && extended == ManifestAfter(m, g, c)
    ensures raised || problems != [] ==> extended == m
  {
    var news := NewPaths(m, paths);
    var added: seq<Entry> := [];
    problems, raised := [], false;
    var n := 0;
    ghost var start := Growth(repo.store, repo.requests, [], [], false);
    while n < |news| && !raised
      invariant n <= |news|
      invariant Growth(repo.store, repo.requests, added, problems, raised) == Grown(start, news, n, net, firstWord, c)
    {
      added, problems, raised := ExtendOne(repo, news[n], added, problems, net, firstWord, c);
      n := n + 1;
    }
    RaisedStays(start, news, n, |news|, net, firstWord, c);
    extended := m;
    if !raised && problems == [] {
      extended := WithAdded(m, added, c);
    }
  }

  lemma {:induction false} RaisedStays(g: Growth, paths: seq<string>, n: nat, k: nat, net: Network,
                                       firstWord: FirstWord, c: Crypto)
    requires n <= k <= |paths| && (n == k || Grown(g, paths, n, net, firstWord, c).raised)
    ensures Grown(g, paths, k, net, firstWord, c) == Grown(g, paths, n, net, firstWord, c)
  {
    if n < k { RaisedStays(g, paths, n, k - 1, net, firstWord, c); }
  }

  // ---------------------------------------------------------------- What was added

  /** `body` is safe to keep for `path`: its SHA-1 is what the network published for it. */
  ghost predicate Published(path: string, body: Bytes, net: Network, firstWord: FirstWord, c: Crypto) {
    && IsSafe(path)
    && exists k: nat :: net(k, path) == Some(body) && net(k + 1, Sidecar(path)).Some?
                        && firstWord(net(k + 1, Sidecar(path)).value) == Some(c.sha1(body))
  }

  /** For each of the first `n` paths, the entry of its payload and the entry of the bare rendering. */
  function Pairs(paths: seq<string>, bodies: seq<Bytes>, n: nat, c: Crypto): (r: seq<Entry>)
    requires n <= |paths| && n <= |bodies|
    ensures |r| == 2 * n
  {
    if n == 0 then []
    else Pairs(paths, bodies, n - 1, c)
         + [EntryFor(paths[n - 1], bodies[n - 1], c),
            EntryFor(Sidecar(paths[n - 1]), Bare(bodies[n - 1], c), c)]
  }

  lemma {:induction false} PairsAt(paths: seq<string>, bodies: seq<Bytes>, n: nat, c: Crypto, i: nat)
    requires i < n <= |paths| && n <= |bodies|
    ensures Pairs(paths, bodies, n, c)[2 * i] == EntryFor(paths[i], bodies[i], c)
    ensures Pairs(paths, bodies, n, c)[2 * i + 1] == EntryFor(Sidecar(paths[i]), Bare(bodies[i], c), c)
  {
    if i < n - 1 { PairsAt(paths, bodies, n - 1, c, i); }
  }

  lemma {:induction false} PairsOfMore(paths: seq<string>, bodies: seq<Bytes>, more: seq<Bytes>, n: nat, c: Crypto)
    requires n <= |paths| && n <= |bodies|
    ensures Pairs(paths, bodies + more, n, c) == Pairs(paths, bodies, n, c)
  {
    if n > 0 { PairsOfMore(paths, bodies, more, n - 1, c); }
  }

  lemma PairsStep(paths: seq<string>, bodies: seq<Bytes>, body: Bytes, n: nat, c: Crypto)
    requires n == |bodies| < |paths|
    ensures Pairs(paths, bodies + [body], n + 1, c)
         == Pairs(paths, bodies, n, c)
            + [EntryFor(paths[n], body, c), EntryFor(Sidecar(paths[n]), Bare(body, c), c)]
  {
    PairsOfMore(paths, bodies, [body], n, c);
  }

  ghost predicate AllPublished(paths: seq<string>, bodies: seq<Bytes>, net: Network, firstWord: FirstWord, c: Crypto) {
    |bodies| <= |paths| && forall i :: 0 <= i < |bodies| ==> Published(paths[i], bodies[i], net, firstWord, c)
  }

  lemma PublishedStep(paths: seq<string>, bodies: seq<Bytes>, body: Bytes, net: Network,
                      firstWord: FirstWord, c: Crypto)
    requires |bodies| < |paths| && AllPublished(paths, bodies, net, firstWord, c)
    requires Published(paths[|bodies|], body, net, firstWord, c)
    ensures AllPublished(paths, bodies + [body], net, firstWord, c)
  {}

  /** A step that goes well keeps one published body. */
  lemma GrowKeeps(g: Growth, path: string, net: Network, firstWord: FirstWord, c: Crypto)
    returns (body: Bytes)
    requires var t := Grow(g, path, net, firstWord, c); !t.raised && t.problems == []
    ensures !g.raised && g.problems == [] && Published(path, body, net, firstWord, c)
    ensures Grow(g, path, net, firstWord, c).added
         == g.added + [EntryFor(path, body, c), EntryFor(Sidecar(path), Bare(body, c), c)]
  {
    body := net(|g.requests|, path).value;
    var k := |g.requests|;
    assert net(k, path) == Some(body) && net(k + 1, Sidecar(path)).Some?;
  }

  ghost predicate GoesWell(g: Growth) {
    !g.raised && g.problems == []
  }

  lemma GrownStep(g: Growth, paths: seq<string>, n: nat, net: Network, firstWord: FirstWord, c: Crypto)
    returns (body: Bytes)
    requires n < |paths| && GoesWell(Grown(g, paths, n + 1, net, firstWord, c))
    ensures GoesWell(Grown(g, paths, n, net, firstWord, c)) && Published(paths[n], body, net, firstWord, c)
    ensures Grown(g, paths, n + 1, net, firstWord, c).added == Grown(g, paths, n, net, firstWord, c).added
         + [EntryFor(paths[n], body, c), EntryFor(Sidecar(paths[n]), Bare(body, c), c)]
  {
    var before := Grown(g, paths, n, net, firstWord, c);
    assert Grown(g, paths, n + 1, net, firstWord, c) == Grow(before, paths[n], net, firstWord, c);
    body := GrowKeeps(before, paths[n], net, firstWord, c);
  }

  /** A run that goes well has added exactly the pairs of some published bodies. */
  lemma {:induction false} GrownArePairs(g: Growth, paths: seq<string>, n: nat, net: Network, firstWord: FirstWord,
                                         c: Crypto) returns (bodies: seq<Bytes>)
    requires n <= |paths| && g.added == []
    requires GoesWell(Grown(g, paths, n, net, firstWord, c))
    ensures |bodies| == n && Grown(g, paths, n, net, firstWord, c).added == Pairs(paths, bodies, n, c)
    ensures AllPublished(paths, bodies, net, firstWord, c)
  {
    if n == 0 {
      bodies := [];
    } else {
      var body := GrownStep(g, paths, n - 1, net, firstWord, c);
      var earlier := GrownArePairs(g, paths, n - 1, net, firstWord, c);
      bodies := earlier + [body];
      PairsStep(paths, earlier, body, n - 1, c);
      PublishedStep(paths, earlier, body, net, firstWord, c);
    }
  }

  // ---------------------------------------------------------------- Paths stay distinct

  lemma AddedPath(paths: seq<string>, bodies: seq<Bytes>, c: Crypto, k: nat)
    requires |bodies| == |paths| && k < 2 * |paths|
    ensures Pairs(paths, bodies, |paths|, c)[k].path == if k % 2 == 0 then paths[k / 2] else Sidecar(paths[k / 2])
  {
    var i := k / 2;
    assert k == 2 * i || k == 2 * i + 1;
    PairsAt(paths, bodies, |paths|, c, i);
  }

  /** No path is another's sidecar. */
  ghost predicate NoSidecars(paths: seq<string>) {
    forall i, j :: 0 <= i < |paths| && 0 <= j < |paths| ==> Sidecar(paths[i]) != paths[j]
  }

  lemma SidecarsDiffer(a: string, b: string)
    requires a != b
    ensures Sidecar(a) != Sidecar(b)
  {
    assert Sidecar(a)[..|Sidecar(a)| - 5] == a && Sidecar(b)[..|Sidecar(b)| - 5] == b;
  }

  lemma AddedPathsAreDistinct(paths: seq<string>, bodies: seq<Bytes>, c: Crypto)
    requires Distinct(paths) && NoSidecars(paths) && |bodies| == |paths|
    ensures DistinctPaths(Pairs(paths, bodies, |paths|, c))
  {
    var added := Pairs(paths, bodies, |paths|, c);
    forall i, j | 0 <= i < j < |added| ensures added[i].path != added[j].path {
      AddedPath(paths, bodies, c, i);
      AddedPath(paths, bodies, c, j);
      if i % 2 == j % 2 {
        assert i / 2 < j / 2;
        SidecarsDiffer(paths[i / 2], paths[j / 2]);
      }
    }
  }

  /** None of the paths is listed, and neither is its sidecar. */
  ghost predicate AllNew(paths: seq<string>, known: set<string>) {
    forall i :: 0 <= i < |paths| ==> paths[i] !in known && Sidecar(paths[i]) !in known
  }

  lemma AddedPathsAreNew(files: seq<Entry>, paths: seq<string>, bodies: seq<Bytes>, c: Crypto)
    requires DistinctPaths(files) && Distinct(paths) && NoSidecars(paths) && |bodies| == |paths|
    requires AllNew(paths, KnownPaths(files))
    ensures DistinctPaths(files + Pairs(paths, bodies, |paths|, c))
  {
    var added := Pairs(paths, bodies, |paths|, c);
    AddedPathsAreDistinct(paths, bodies, c);
    forall i, j | 0 <= i < |files| && 0 <= j < |added| ensures files[i].path != added[j].path {
      AddedPath(paths, bodies, c, j);
      assert files[i].path in KnownPaths(files);
    }
  }

  lemma PathTwice(files: seq<Entry>, i: nat, j: nat)
    requires i < j < |files| && files[i].path == files[j].path
    ensures !DistinctPaths(files)
  {}

  lemma ListedSidecarIsRepeated(files: seq<Entry>, paths: seq<string>, bodies: seq<Bytes>, c: Crypto,
                                i: nat)
    requires |bodies| == |paths| && i < |paths|
    requires Sidecar(paths[i]) in KnownPaths(files) || Sidecar(paths[i]) in paths
    ensures !DistinctPaths(files + Pairs(paths, bodies, |paths|, c))
  {
    var added := Pairs(paths, bodies, |paths|, c);
    var all, at := files + added, |files| + (2 * i + 1);
    PairsAt(paths, bodies, |paths|, c, i);
    assert all[at] == added[2 * i + 1];
    if Sidecar(paths[i]) in KnownPaths(files) {
      var k :| 0 <= k < |files| && files[k].path == Sidecar(paths[i]);
      assert all[k] == files[k];
      PathTwice(all, k, at);
    } else {
      var k :| 0 <= k < |paths| && paths[k] == Sidecar(paths[i]);
      var other := |files| + 2 * k;
      PairsAt(paths, bodies, |paths|, c, k);
      assert all[other] == added[2 * k] && other != at;
      assert all[other].path == paths[k] == all[at].path;
      if other < at { PathTwice(all, other, at); } else { PathTwice(all, at, other); }
    }
  }

  /** No new path has a sidecar that is listed or also asked for. */
  ghost predicate SidecarsAreFree(m: Manifest, paths: set<string>) {
    forall p :: p in paths && p !in KnownPaths(m.files) ==> Sidecar(p) !in paths && Sidecar(p) !in KnownPaths(m.files)
  }

  lemma NewPathsAre(m: Manifest, paths: set<string>)
    ensures Distinct(NewPaths(m, paths))
    ensures forall p :: p in NewPaths(m, paths) <==> p in paths && p !in KnownPaths(m.files)
  {
    AscendingElements(paths - KnownPaths(m.files));
  }

  lemma AddedDistinctIff(m: Manifest, paths: set<string>, bodies: seq<Bytes>, c: Crypto)
    requires DistinctPaths(m.files) && |bodies| == |NewPaths(m, paths)|
    ensures DistinctPaths(m.files + Pairs(NewPaths(m, paths), bodies, |bodies|, c)) <==> SidecarsAreFree(m, paths)
  {
    var news := NewPaths(m, paths);
    NewPathsAre(m, paths);
    if SidecarsAreFree(m, paths) {
      assert forall i :: 0 <= i < |news| ==> news[i] in news;
      AddedPathsAreNew(m.files, news, bodies, c);
    } else {
      var p :| p in paths && p !in KnownPaths(m.files) && (Sidecar(p) in paths || Sidecar(p) in KnownPaths(m.files));
      assert p in news;
      var i: nat :| i < |news| && news[i] == p;
      ListedSidecarIsRepeated(m.files, news, bodies, c, i);
    }
  }

  /** The loop over the new paths, from a repository with nothing added yet, ended well. */
  ghost predicate Succeeds(g: Growth, m: Manifest, paths: set<string>, net: Network, firstWord: FirstWord, c: Crypto) {
    var t := Grown(g, NewPaths(m, paths), |NewPaths(m, paths)|, net, firstWord, c);
    g.added == [] && !t.raised && t.problems == []
  }

  function Extended(g: Growth, m: Manifest, paths: set<string>, net: Network, firstWord: FirstWord, c: Crypto): Manifest
  {
    ManifestAfter(m, Grown(g, NewPaths(m, paths), |NewPaths(m, paths)|, net, firstWord, c), c)
  }

  /** What a successful extension lists: the old entries and the pairs of published bodies, sorted. */
  lemma ExtensionLists(g: Growth, m: Manifest, paths: set<string>, net: Network,
                       firstWord: FirstWord, c: Crypto) returns (bodies: seq<Bytes>)
    requires Succeeds(g, m, paths, net, firstWord, c)
    ensures var news := NewPaths(m, paths);
      && |bodies| == |news| && AllPublished(news, bodies, net, firstWord, c)
      && Extended(g, m, paths, net, firstWord, c).files
         == SortBy(m.files + Pairs(news, bodies, |news|, c), PathLeq)
  {
    bodies := GrownArePairs(g, NewPaths(m, paths), |NewPaths(m, paths)|, net, firstWord, c);
  }

  /** A successful extension lists every path once exactly when no new path's sidecar is listed or asked for. */
  lemma ExtensionIsDistinctIff(g: Growth, m: Manifest, paths: set<string>, net: Network,
                               firstWord: FirstWord, c: Crypto)
    requires DistinctPaths(m.files) && Succeeds(g, m, paths, net, firstWord, c)
    ensures DistinctPaths(Extended(g, m, paths, net, firstWord, c).files) <==> SidecarsAreFree(m, paths)
  {
    var bodies := ExtensionLists(g, m, paths, net, firstWord, c);
    AddedDistinctIff(m, paths, bodies, c);
    SortedPathsDistinctIff(m.files + Pairs(NewPaths(m, paths), bodies, |bodies|, c));
  }

  // ---------------------------------------------------------------- Extend, then fetch

  /** Only the last piece differs, and it has at least `k` characters. */
  ghost predicate SameButLast(parts: seq<string>, longer: seq<string>, k: nat) {
    && |longer| == |parts| >= 1 && |longer[|parts| - 1]| >= k
    && forall i :: 0 <= i < |parts| - 1 ==> longer[i] == parts[i]
  }

  lemma SamePiece(parts: seq<string>, longer: seq<string>, k: nat, x: char)
    requires SameButLast(parts, longer, k)
    ensures SameButLast([[]] + parts, [[]] + longer, k)
    ensures SameButLast([[x] + parts[0]] + parts[1..], [[x] + longer[0]] + longer[1..], k)
  {}

  /** A suffix without the separator changes the last piece alone. */
  lemma {:induction false} SplitSuffix(s: string, suffix: string, c: char)
    requires c !in suffix
    ensures SameButLast(Split(s, c), Split(s + suffix, c), |suffix|)
  {
    if s == [] {
      assert s + suffix == suffix;
      SplitWithout(suffix, c);
    } else {
      assert (s + suffix)[1..] == s[1..] + suffix && (s + suffix)[0] == s[0];
      SplitSuffix(s[1..], suffix, c);
      SamePiece(Split(s[1..], c), Split(s[1..] + suffix, c), |suffix|, s[0]);
    }
  }

  lemma SidecarIsSafe(path: string)
    requires IsSafe(path)
    ensures IsSafe(Sidecar(path)) && KindOf(Sidecar(path)) == CHECKSUM
  {
    var parts, longer := Split(path, '/'), Split(Sidecar(path), '/');
    SplitSuffix(path, SHA1_SUFFIX, '/');
    forall i | 0 <= i < |longer| ensures longer[i] != ".." {
      if i < |parts| - 1 {
        assert longer[i] == parts[i] && parts[i] in parts;
      }
    }
    assert EndsWith(Sidecar(path), ".sha1");
  }

  lemma SortedIndex(files: seq<Entry>, k: nat) returns (i: nat)
    requires k < |files|
    ensures i < |SortBy(files, PathLeq)| && SortBy(files, PathLeq)[i] == files[k]
  {
    SortKeepsElements(files, PathLeq, files[k]);
    i :| i < |SortBy(files, PathLeq)| && SortBy(files, PathLeq)[i] == files[k];
  }

  lemma PairInFiles(files: seq<Entry>, paths: seq<string>, bodies: seq<Bytes>, c: Crypto, k: nat)
    returns (i: nat, j: nat)
    requires |bodies| == |paths| && k < |paths|
    ensures var sorted := SortBy(files + Pairs(paths, bodies, |paths|, c), PathLeq);
      && i < |sorted| && sorted[i] == EntryFor(paths[k], bodies[k], c)
      && j < |sorted| && sorted[j] == EntryFor(Sidecar(paths[k]), Bare(bodies[k], c), c)
  {
    PairsAt(paths, bodies, |paths|, c, k);
    var all := files + Pairs(paths, bodies, |paths|, c);
    i := SortedIndex(all, |files| + 2 * k);
    j := SortedIndex(all, |files| + 2 * k + 1);
  }

  /** Every new path of a successful extension is listed with a published body and its bare sidecar. */
  lemma ExtensionFreezes(g: Growth, m: Manifest, paths: set<string>, net: Network,
                         firstWord: FirstWord, c: Crypto, path: string)
    returns (i: nat, j: nat, body: Bytes)
    requires Succeeds(g, m, paths, net, firstWord, c) && path in paths && path !in KnownPaths(m.files)
    ensures Published(path, body, net, firstWord, c)
    ensures var files := Extended(g, m, paths, net, firstWord, c).files;
      && i < |files| && files[i] == EntryFor(path, body, c)
      && j < |files| && files[j] == EntryFor(Sidecar(path), Bare(body, c), c)
  {
    var news := NewPaths(m, paths);
    var bodies := ExtensionLists(g, m, paths, net, firstWord, c);
    NewPathsAre(m, paths);
    assert path in news;
    var k: nat :| k < |news| && news[k] == path;
    i, j := PairInFiles(m.files, news, bodies, c, k);
    body := bodies[k];
  }

  /** The network answers for `path` with the bytes that are listed for it. */
  ghost predicate ServesListed(net: Network, files: seq<Entry>, path: string, c: Crypto) {
    forall i :: 0 <= i < |files| && files[i].path == path ==> Serves(net, files[i], c)
  }

  /**
   * After a successful extension, a network that serves the listed bytes of a new payload lets a fetch from any store
   * rebuild that payload and its sidecar, and refuse neither.
   */
  lemma ExtendThenFetch(g: Growth, m: Manifest, paths: set<string>, net: Network,
                        firstWord: FirstWord, c: Crypto, path: string, store: Files, later: Network)
    requires DistinctPaths(m.files) && SidecarsAreFree(m, paths) && Succeeds(g, m, paths, net, firstWord, c)
    requires path in paths && path !in KnownPaths(m.files) && !IsChecksum(path)
    requires Injective(c.encode) && Injective(c.sha256)
    requires ServesListed(later, Extended(g, m, paths, net, firstWord, c).files, path, c)
    ensures var after := Fetched(Extended(g, m, paths, net, firstWord, c).files, State(store, [], [], []), later, c);
      && path in after.store && Published(path, after.store[path], net, firstWord, c)
      && Sidecar(path) in after.store && after.store[Sidecar(path)] == Bare(after.store[path], c)
      && NoProblemAt(after.problems, path) && NoProblemAt(after.problems, Sidecar(path))
  {
    var files := Extended(g, m, paths, net, firstWord, c).files;
    var i, j, body := ExtensionFreezes(g, m, paths, net, firstWord, c, path);
    ExtensionIsDistinctIff(g, m, paths, net, firstWord, c);
    SidecarIsSafe(path);
    assert c.sha256(Renderings(body, path, c)[0].content) == files[j].sha256;
    ServedEntriesAreRebuilt(files, i, j, body, store, later, c);
  }
}
