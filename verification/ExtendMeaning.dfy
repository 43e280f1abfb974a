/** An extension in plain terms: what it stores, what it reports, and what becomes of the manifest. */
module ExtendMeaning {
  import opened Wrappers
  import opened Order
  import opened Text
  import opened MavenRepo
  import opened MavenTheorems
  import opened MavenMeaning
  import opened MavenExtend

  // ---------------------------------------------------------------- What is stored

  /** The network gave `body` for `path`, and next a text whose first word is the SHA-1 of `body`. */
  ghost predicate Vouched(path: string, body: Bytes, net: Network, firstWord: FirstWord, c: Crypto) {
    exists k: nat :: && net(k, path) == Some(body)
      && match net(k + 1, path + ".sha1")
         case None => false
         case Some(text) => firstWord(text) == Some(c.sha1(body))
  }

  /** The content is a vouched body of path `own`, or the SHA-1 of one at that path with the suffix. */
  ghost predicate StoredFor(own: string, path: string, content: Bytes, body: Bytes, net: Network, firstWord: FirstWord,
                            c: Crypto)
  {
    && IsSafe(own) && Vouched(own, body, net, firstWord, c)
    && ((path == own && content == body) || (path == own + ".sha1" && content == c.encode(c.sha1(body))))
  }

  /** That holds for one of the first `n` paths. */
  ghost predicate Stored(paths: seq<string>, n: nat, path: string, content: Bytes, net: Network, firstWord: FirstWord,
                         c: Crypto)
    requires n <= |paths|
  {
    exists i, body :: 0 <= i < n && StoredFor(paths[i], path, content, body, net, firstWord, c)
  }

  /** Every file is as it was, or stored by the extension. */
  ghost predicate OnlyStored(before: Files, after: Files, paths: seq<string>, n: nat, net: Network,
                             firstWord: FirstWord, c: Crypto)
    requires n <= |paths|
  {
    && (forall path :: path in before ==> path in after)
    && forall path :: path in after ==>
         (path in before && before[path] == after[path]) || Stored(paths, n, path, after[path], net, firstWord, c)
  }

  lemma GrowVouches(g: Growth, path: string, net: Network, firstWord: FirstWord, c: Crypto) returns (body: Bytes)
    requires Grow(g, path, net, firstWord, c).store != g.store
    ensures IsSafe(path) && Vouched(path, body, net, firstWord, c)
    ensures Grow(g, path, net, firstWord, c).store == g.store[path := body][path + ".sha1" := c.encode(c.sha1(body))]
  {
    var k := |g.requests|;
    body := net(k, path).value;
    assert net(k, path) == Some(body) && net(k + 1, path + ".sha1").Some?;
  }

  lemma {:induction false} GrownStores(g: Growth, paths: seq<string>, n: nat, net: Network, firstWord: FirstWord,
                                       c: Crypto)
    requires n <= |paths|
    ensures OnlyStored(g.store, Grown(g, paths, n, net, firstWord, c).store, paths, n, net, firstWord, c)
  {
    if n > 0 {
      GrownStores(g, paths, n - 1, net, firstWord, c);
      var before := Grown(g, paths, n - 1, net, firstWord, c);
      var after := Grow(before, paths[n - 1], net, firstWord, c);
      StoresMore(g.store, before.store, paths, n - 1, net, firstWord, c);
      if after.store != before.store {
        var body := GrowVouches(before, paths[n - 1], net, firstWord, c);
        StoresPair(g.store, before.store, after.store, paths, n, body, net, firstWord, c);
      }
    }
  }

  lemma StoresMore(before: Files, after: Files, paths: seq<string>, n: nat, net: Network, firstWord: FirstWord,
                   c: Crypto)
    requires n < |paths| && OnlyStored(before, after, paths, n, net, firstWord, c)
    ensures OnlyStored(before, after, paths, n + 1, net, firstWord, c)
  {
    forall path | path in after && !(path in before && before[path] == after[path])
      ensures Stored(paths, n + 1, path, after[path], net, firstWord, c)
    {
      assert Stored(paths, n, path, after[path], net, firstWord, c);
      var i, body :| 0 <= i < n && StoredFor(paths[i], path, after[path], body, net, firstWord, c);
    }
  }

  lemma StoresPair(before: Files, mid: Files, after: Files, paths: seq<string>, n: nat, body: Bytes, net: Network,
                   firstWord: FirstWord, c: Crypto)
    requires 0 < n <= |paths| && OnlyStored(before, mid, paths, n, net, firstWord, c)
    requires IsSafe(paths[n - 1]) && Vouched(paths[n - 1], body, net, firstWord, c)
    requires after == mid[paths[n - 1] := body][paths[n - 1] + ".sha1" := c.encode(c.sha1(body))]
    ensures OnlyStored(before, after, paths, n, net, firstWord, c)
  {
    var own := paths[n - 1];
    assert |own + ".sha1"| > |own|;
    forall path | path in after && !(path in before && before[path] == after[path])
      ensures Stored(paths, n, path, after[path], net, firstWord, c)
    {
      if path == own || path == own + ".sha1" {
        assert StoredFor(paths[n - 1], path, after[path], body, net, firstWord, c);
      } else {
        assert path in mid && mid[path] == after[path];
        assert Stored(paths, n, path, mid[path], net, firstWord, c);
      }
    }
  }

  /** Every extension, failing ones too: a file that it changes is a new path with bytes whose SHA-1 the network
      published, or such a path with the suffix and that SHA-1. No file is removed. */
  lemma ExtensionStoresOnlyVouched(g: Growth, m: Manifest, paths: set<string>, net: Network, firstWord: FirstWord,
                                   c: Crypto)
    ensures var news := NewPaths(m, paths);
      OnlyStored(g.store, Grown(g, news, |news|, net, firstWord, c).store, news, |news|, net, firstWord, c)
  {
    GrownStores(g, NewPaths(m, paths), |NewPaths(m, paths)|, net, firstWord, c);
  }

  /** The new paths are those that the manifest does not list, ascending. */
  lemma NewPathsAscend(m: Manifest, paths: set<string>)
    ensures var news := NewPaths(m, paths);
      && (forall i, j :: 0 <= i < j < |news| ==> StringLeq(news[i], news[j]) && news[i] != news[j])
      && forall path :: path in news <==> path in paths && !Listed(m.files, path)
  {
    AscendingElements(paths - KnownPaths(m.files));
    forall path ensures path in KnownPaths(m.files) <==> Listed(m.files, path) {
      EntriesAre(m.files, path);
      if path in KnownPaths(m.files) {
        var i :| 0 <= i < |m.files| && m.files[i].path == path;
        var j := LastOne(m.files, i);
      }
    }
  }

  lemma {:induction false} LastOne(files: seq<Entry>, i: nat) returns (j: nat)
    requires i < |files|
    ensures LastFor(files, j, files[i].path)
    decreases |files| - i
  {
    if k :| i < k < |files| && files[k].path == files[i].path {
      j := LastOne(files, k);
    } else {
      j := i;
    }
  }

  // ---------------------------------------------------------------- What is reported

  /** What is wrong with one path: it is unsafe, or one of its two downloads fails, or they do not agree. */
  ghost predicate Objection(g: Growth, path: string, net: Network, firstWord: FirstWord, c: Crypto, reason: Reason) {
    var k := |g.requests|;
    && !g.raised
    && if !IsSafe(path) then reason == UnsafePath
       else if net(k, path) == None || net(k + 1, path + ".sha1") == None then reason == CannotFetch
       else
         var word := firstWord(net(k + 1, path + ".sha1").value);
         reason == Sha1Differs && word != None && word != Some(c.sha1(net(k, path).value))
  }

  ghost predicate ObjectsTo(g: Growth, paths: seq<string>, n: nat, net: Network, firstWord: FirstWord, c: Crypto,
                            q: Problem)
    requires n <= |paths|
  {
    q.At? && exists k :: && 0 <= k < n && paths[k] == q.path
                         && Objection(Grown(g, paths, k, net, firstWord, c), paths[k], net, firstWord, c, q.reason)
  }

  lemma GrowObjects(g: Growth, path: string, net: Network, firstWord: FirstWord, c: Crypto, q: Problem)
    ensures q in Grow(g, path, net, firstWord, c).problems <==>
            q in g.problems || (q.At? && q.path == path && Objection(g, path, net, firstWord, c, q.reason))
    ensures |Grow(g, path, net, firstWord, c).problems| <= |g.problems| + 1
  {}

  /** Every problem that an extension reports, and no other. */
  lemma {:induction false} ExtensionProblemsAre(g: Growth, paths: seq<string>, n: nat, net: Network,
                                                firstWord: FirstWord, c: Crypto, q: Problem)
    requires n <= |paths| && g.problems == []
    ensures q in Grown(g, paths, n, net, firstWord, c).problems <==> ObjectsTo(g, paths, n, net, firstWord, c, q)
    ensures |Grown(g, paths, n, net, firstWord, c).problems| <= n
  {
    if n > 0 {
      var before := Grown(g, paths, n - 1, net, firstWord, c);
      assert Grown(g, paths, n, net, firstWord, c) == Grow(before, paths[n - 1], net, firstWord, c);
      ExtensionProblemsAre(g, paths, n - 1, net, firstWord, c, q);
      GrowObjects(before, paths[n - 1], net, firstWord, c, q);
    }
  }

  // ---------------------------------------------------------------- What is asked of the network

  /** The downloads up to the first exception: every safe path, and next its published checksum if the path came. */
  ghost function Downloads(g: Growth, paths: seq<string>, n: nat, net: Network, firstWord: FirstWord, c: Crypto)
      : seq<string>
    requires n <= |paths|
  {
    if n == 0 then []
    else
      var before, path := Grown(g, paths, n - 1, net, firstWord, c), paths[n - 1];
      Downloads(g, paths, n - 1, net, firstWord, c)
      + if before.raised || !IsSafe(path) then []
        else if net(|before.requests|, path) == None then [path]
        else [path, path + ".sha1"]
  }

  /** An extension asks for these and nothing else, in this order. */
  lemma {:induction false} DownloadsAre(g: Growth, paths: seq<string>, n: nat, net: Network, firstWord: FirstWord,
                                        c: Crypto)
    requires n <= |paths|
    ensures Grown(g, paths, n, net, firstWord, c).requests
         == g.requests + Downloads(g, paths, n, net, firstWord, c)
  {
    if n > 0 {
      DownloadsAre(g, paths, n - 1, net, firstWord, c);
      GrowAsks(Grown(g, paths, n - 1, net, firstWord, c), paths[n - 1], net, firstWord, c);
    }
  }

  lemma GrowAsks(g: Growth, path: string, net: Network, firstWord: FirstWord, c: Crypto)
    ensures Grow(g, path, net, firstWord, c).requests == g.requests
      + if g.raised || !IsSafe(path) then []
        else if net(|g.requests|, path) == None then [path]
        else [path, path + ".sha1"]
  {}

  // ---------------------------------------------------------------- What becomes of the manifest

  /** An extension that was ended by an exception or reported a problem leaves the manifest as it was. */
  lemma FailedExtensionKeepsManifest(g: Growth, m: Manifest, paths: set<string>, net: Network, firstWord: FirstWord,
                                     c: Crypto)
    ensures var news := NewPaths(m, paths);
      var t := Grown(g, news, |news|, net, firstWord, c);
      t.raised || t.problems != [] ==> Extended(g, m, paths, net, firstWord, c) == m
  {}

  /** A successful one sorts its entries by path, derives the digest from them, and is attested exactly when every
      artifact and every POM in it is. */
  lemma ExtensionDerives(g: Growth, m: Manifest, paths: set<string>, net: Network, firstWord: FirstWord, c: Crypto)
    requires Succeeds(g, m, paths, net, firstWord, c)
    ensures var extended := Extended(g, m, paths, net, firstWord, c);
      && (forall i, j :: 0 <= i < j < |extended.files| ==> StringLeq(extended.files[i].path, extended.files[j].path))
      && extended.contentDigest == ContentDigest(extended.files, c)
      && (extended.attested <==> forall i :: 0 <= i < |extended.files| ==> !Unproven(extended.files[i]))
  {
    var news := NewPaths(m, paths);
    var all := m.files + Grown(g, news, |news|, net, firstWord, c).added;
    var files := SortBy(all, PathLeq);
    StringOrder();
    assert Preorder(PathLeq);
    SortIsSorted(all, PathLeq);
    forall i, j | 0 <= i < j < |files| ensures StringLeq(files[i].path, files[j].path) {
      assert PathLeq(files[i], files[j]);
    }
    UnattestedIs(files);
    if i :| 0 <= i < |files| && Unproven(files[i]) { assert i in UnprovenPlaces(files); }
  }

  // ---------------------------------------------------------------- What was listed is there

  /** The store holds the first `n` bodies, and the SHA-1 of each beside it. */
  ghost predicate HoldsPairs(store: Files, paths: seq<string>, bodies: seq<Bytes>, n: nat, c: Crypto)
    requires n <= |paths| && n <= |bodies|
  {
    forall i :: 0 <= i < n ==>
      && paths[i] in store && store[paths[i]] == bodies[i]
      && paths[i] + ".sha1" in store && store[paths[i] + ".sha1"] == c.encode(c.sha1(bodies[i]))
  }

  lemma GrowPairs(g: Growth, path: string, net: Network, firstWord: FirstWord, c: Crypto) returns (body: Bytes)
    requires GoesWell(Grow(g, path, net, firstWord, c))
    ensures GoesWell(g) && Published(path, body, net, firstWord, c)
    ensures var t := Grow(g, path, net, firstWord, c);
      && t.added == g.added + [EntryFor(path, body, c), EntryFor(Sidecar(path), Bare(body, c), c)]
      && t.store == g.store[path := body][path + ".sha1" := c.encode(c.sha1(body))]
  {
    body := net(|g.requests|, path).value;
    var k := |g.requests|;
    assert net(k, path) == Some(body) && net(k + 1, Sidecar(path)).Some?;
  }

  lemma GrownPairStep(g: Growth, paths: seq<string>, n: nat, net: Network, firstWord: FirstWord, c: Crypto)
    returns (body: Bytes)
    requires n < |paths| && GoesWell(Grown(g, paths, n + 1, net, firstWord, c))
    ensures GoesWell(Grown(g, paths, n, net, firstWord, c)) && Published(paths[n], body, net, firstWord, c)
    ensures var s, t := Grown(g, paths, n, net, firstWord, c), Grown(g, paths, n + 1, net, firstWord, c);
      && t.added == s.added + [EntryFor(paths[n], body, c), EntryFor(Sidecar(paths[n]), Bare(body, c), c)]
      && t.store == s.store[paths[n] := body][paths[n] + ".sha1" := c.encode(c.sha1(body))]
  {
    var before := Grown(g, paths, n, net, firstWord, c);
    assert Grown(g, paths, n + 1, net, firstWord, c) == Grow(before, paths[n], net, firstWord, c);
    body := GrowPairs(before, paths[n], net, firstWord, c);
  }

  lemma {:induction false} GrownAreHeld(g: Growth, paths: seq<string>, n: nat, net: Network, firstWord: FirstWord,
                                        c: Crypto) returns (bodies: seq<Bytes>)
    requires n <= |paths| && g.added == [] && Distinct(paths) && NoSidecars(paths)
    requires GoesWell(Grown(g, paths, n, net, firstWord, c))
    ensures |bodies| == n && Grown(g, paths, n, net, firstWord, c).added == Pairs(paths, bodies, n, c)
    ensures AllPublished(paths, bodies, net, firstWord, c)
    ensures HoldsPairs(Grown(g, paths, n, net, firstWord, c).store, paths, bodies, n, c)
  {
    if n == 0 {
      bodies := [];
    } else {
      var body := GrownPairStep(g, paths, n - 1, net, firstWord, c);
      var earlier := GrownAreHeld(g, paths, n - 1, net, firstWord, c);
      bodies := earlier + [body];
      PairsStep(paths, earlier, body, n - 1, c);
      PublishedStep(paths, earlier, body, net, firstWord, c);
      PairStaysHeld(Grown(g, paths, n - 1, net, firstWord, c).store, paths, earlier, body, n - 1, c);
    }
  }

  lemma PairStaysHeld(store: Files, paths: seq<string>, bodies: seq<Bytes>, body: Bytes, n: nat, c: Crypto)
    requires n == |bodies| < |paths| && Distinct(paths) && NoSidecars(paths) && HoldsPairs(store, paths, bodies, n, c)
    ensures HoldsPairs(store[paths[n] := body][paths[n] + ".sha1" := c.encode(c.sha1(body))], paths, bodies + [body],
                       n + 1, c)
  {
    var own := paths[n];
    forall i | 0 <= i < n
      ensures paths[i] != own && paths[i] != own + ".sha1"
      ensures paths[i] + ".sha1" != own && paths[i] + ".sha1" != own + ".sha1"
    {
      SidecarsDiffer(paths[i], own);
      assert Sidecar(paths[i]) != paths[n] && Sidecar(paths[n]) != paths[i];
    }
    assert Sidecar(own) != own;
  }

  lemma FreeOfSidecars(m: Manifest, paths: set<string>)
    requires SidecarsAreFree(m, paths)
    ensures NoSidecars(NewPaths(m, paths))
  {
    var news := NewPaths(m, paths);
    NewPathsAre(m, paths);
    forall i, j | 0 <= i < |news| && 0 <= j < |news| ensures Sidecar(news[i]) != news[j] {
      assert news[i] in news && news[j] in news;
    }
  }

  lemma PairIsListed(files: seq<Entry>, paths: seq<string>, bodies: seq<Bytes>, c: Crypto, k: nat)
    requires |bodies| == |paths| && k < |paths|
    ensures var sorted, path, body := SortBy(files + Pairs(paths, bodies, |paths|, c), PathLeq), paths[k], bodies[k];
      && Entry(path, KindOf(path), c.sha256(body), true) in sorted
      && Entry(path + ".sha1", KindOf(path + ".sha1"), c.sha256(c.encode(c.sha1(body))), true) in sorted
  {
    var i, j := PairInFiles(files, paths, bodies, c, k);
  }

  lemma ExtensionHolds(g: Growth, m: Manifest, paths: set<string>, net: Network, firstWord: FirstWord, c: Crypto)
    returns (bodies: seq<Bytes>)
    requires Succeeds(g, m, paths, net, firstWord, c) && SidecarsAreFree(m, paths)
    ensures var news := NewPaths(m, paths);
      && |bodies| == |news| && AllPublished(news, bodies, net, firstWord, c)
      && HoldsPairs(Grown(g, news, |news|, net, firstWord, c).store, news, bodies, |news|, c)
      && Extended(g, m, paths, net, firstWord, c).files
         == SortBy(m.files + Pairs(news, bodies, |news|, c), PathLeq)
  {
    NewPathsAre(m, paths);
    FreeOfSidecars(m, paths);
    bodies := GrownAreHeld(g, NewPaths(m, paths), |NewPaths(m, paths)|, net, firstWord, c);
  }

  /** What a successful extension lists is in the store: every new path with a published body, its sidecar with the
      SHA-1 of that body, each under the digest of what is stored. */
  lemma ExtensionIsHeld(g: Growth, m: Manifest, paths: set<string>, net: Network, firstWord: FirstWord, c: Crypto,
                        path: string) returns (body: Bytes)
    requires Succeeds(g, m, paths, net, firstWord, c) && SidecarsAreFree(m, paths)
    requires path in paths && !Listed(m.files, path)
    ensures var news := NewPaths(m, paths);
      var store := Grown(g, news, |news|, net, firstWord, c).store;
      var files := Extended(g, m, paths, net, firstWord, c).files;
      && Published(path, body, net, firstWord, c)
      && path in store && store[path] == body
      && path + ".sha1" in store && store[path + ".sha1"] == c.encode(c.sha1(body))
      && Entry(path, KindOf(path), c.sha256(body), true) in files
      && Entry(path + ".sha1", KindOf(path + ".sha1"), c.sha256(c.encode(c.sha1(body))), true) in files
  {
    var news := NewPaths(m, paths);
    NewPathsAscend(m, paths);
    var bodies := ExtensionHolds(g, m, paths, net, firstWord, c);
    assert path in news;
    var k: nat :| k < |news| && news[k] == path;
    body := bodies[k];
    PairIsListed(m.files, news, bodies, c, k);
    assert Published(news[k], bodies[k], net, firstWord, c);
  }
}
