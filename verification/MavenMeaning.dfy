/** The Maven repository in plain terms: which paths are safe, what every write comes from, and which problems are
    reported of a fetch and of a verification. */
module MavenMeaning {
  import opened Wrappers
  import opened Order
  import opened Text
  import opened MavenRepo
  import opened MavenTheorems
  import opened MavenSidecars

  // ---------------------------------------------------------------- Paths and kinds

  /** The characters from `i` to `j` are what lies between two slashes, or between a slash and an end. */
  ghost predicate Between(path: string, i: nat, j: nat) {
    && i <= j <= |path| && (i == 0 || path[i - 1] == '/') && (j == |path| || path[j] == '/')
    && forall k :: i <= k < j ==> path[k] != '/'
  }

  ghost predicate HasPiece(path: string, piece: string) {
    exists i: nat, j: nat :: Between(path, i, j) && path[i..j] == piece
  }

  /** The pieces after a slash are pieces of the path. */
  lemma TailPiece(path: string, d: nat, i: nat, j: nat)
    requires 0 < d <= |path| && path[d - 1] == '/' && i <= j <= |path| - d
    ensures Between(path[d..], i, j) <==> Between(path, d + i, d + j)
    ensures path[d..][i..j] == path[d + i..d + j]
  {
    var tail := path[d..];
    assert forall k :: 0 <= k < |tail| ==> tail[k] == path[d + k];
    if Between(tail, i, j) {
      forall k | d + i <= k < d + j ensures path[k] != '/' { assert path[k] == tail[k - d]; }
      assert i > 0 ==> path[d + i - 1] == tail[i - 1];
    }
    if Between(path, d + i, d + j) {
      assert i > 0 ==> tail[i - 1] == path[d + i - 1];
    }
    SliceOfTail(path, d, i, j);
  }

  lemma PieceOfTail(path: string, head: string, tail: string, piece: string)
    requires path == head + ['/'] + tail && HasPiece(tail, piece)
    ensures HasPiece(path, piece)
  {
    var i: nat, j: nat :| Between(tail, i, j) && tail[i..j] == piece;
    Apart(head, tail);
    TailPiece(path, |head| + 1, i, j);
  }

  lemma PieceOfHead(path: string, head: string, tail: string)
    requires path == head + ['/'] + tail && '/' !in head
    ensures HasPiece(path, head)
  {
    Apart(head, tail);
    assert path[0..|head|] == head;
    assert Between(path, 0, |head|);
  }

  lemma PieceOfEither(path: string, head: string, tail: string, piece: string)
    requires path == head + ['/'] + tail && '/' !in head && HasPiece(path, piece)
    ensures piece == head || HasPiece(tail, piece)
  {
    var i: nat, j: nat :| Between(path, i, j) && path[i..j] == piece;
    Apart(head, tail);
    assert path[..|head|] == head;
    LaterPiece(path, |head|, i, j);
  }

  lemma OnePiece(path: string, piece: string)
    requires '/' !in path
    ensures HasPiece(path, piece) <==> piece == path
  {
    assert Between(path, 0, |path|) && path[0..|path|] == path;
    if i: nat, j: nat :| Between(path, i, j) && path[i..j] == piece {
      assert i == 0 && j == |path|;
    }
  }

  lemma {:induction false} PiecesAre(path: string, piece: string)
    ensures piece in Split(path, '/') <==> HasPiece(path, piece)
    decreases |path|
  {
    if '/' in path {
      var head, tail := FirstPiece(path, '/');
      SplitAfter(head, '/', tail);
      PiecesAre(tail, piece);
      PieceOfHead(path, head, tail);
      if HasPiece(tail, piece) { PieceOfTail(path, head, tail, piece); }
      if HasPiece(path, piece) { PieceOfEither(path, head, tail, piece); }
    } else {
      SplitWithout(path, '/');
      OnePiece(path, piece);
    }
  }

  lemma Apart(head: string, tail: string)
    ensures var path, d := head + ['/'] + tail, |head| + 1;
      && |path| == d + |tail| && path[|head|] == '/' && path[d..] == tail
      && (forall k :: 0 <= k < |head| ==> path[k] == head[k])
      && (forall k :: 0 <= k < |tail| ==> path[d + k] == tail[k])
  {}

  /** A piece is the first one, or one of what follows the first slash. */
  lemma LaterPiece(path: string, n: nat, i: nat, j: nat)
    requires n < |path| && path[n] == '/' && (forall k :: 0 <= k < n ==> path[k] != '/') && Between(path, i, j)
    ensures (i == 0 && j == n) || HasPiece(path[n + 1..], path[i..j])
  {
    if i > 0 { TailPiece(path, n + 1, i - (n + 1), j - (n + 1)); }
  }

  /** A safe path is not empty, does not begin with a slash, holds no backslash, and never steps to a parent. */
  lemma SafeMeans(path: string)
    ensures IsSafe(path) <==>
      path != "" && path[0] != '/' && (forall i :: 0 <= i < |path| ==> path[i] != '\\') && !HasPiece(path, "..")
  {
    PiecesAre(path, "..");
  }

  ghost predicate Suffixed(path: string, suffix: string) {
    exists base :: path == base + suffix
  }

  lemma SuffixedIs(path: string, suffix: string)
    ensures EndsWith(path, suffix) <==> Suffixed(path, suffix)
  {
    if EndsWith(path, suffix) {
      assert path == path[..|path| - |suffix|] + suffix;
    }
    if base :| path == base + suffix { assert path[|base|..] == suffix; }
  }

  /** The file name of a path is what follows its last slash. */
  lemma {:induction false} BasenameIs(path: string)
    ensures '/' !in Basename(path)
    ensures exists dir :: path == dir + Basename(path) && (dir == "" || dir[|dir| - 1] == '/')
  {
    if '/' in path {
      BasenameIs(path[1..]);
      var rest :| path[1..] == rest + Basename(path[1..]) && (rest == "" || rest[|rest| - 1] == '/');
      var dir := [path[0]] + rest;
      assert path == [path[0]] + path[1..] == dir + Basename(path);
      if rest == "" {
        assert '/' !in path[1..];
        assert path[0] == '/';
      }
    } else {
      assert path == "" + path;
    }
  }

  /** The kind of a file: a checksum by its suffix, else metadata by its name, else a POM by its suffix, else an
      artifact. */
  lemma KindsAre(path: string)
    ensures var checksum := Suffixed(path, ".sha1") || Suffixed(path, ".md5") || Suffixed(path, ".sha256")
                            || Suffixed(path, ".sha512");
      var metadata := exists rest :: Basename(path) == "maven-metadata" + rest;
      KindOf(path) == if checksum then "checksum" else if metadata then "metadata"
                      else if Suffixed(path, ".pom") then "pom" else "artifact"
  {
    SuffixedIs(path, ".sha1");
    SuffixedIs(path, ".md5");
    SuffixedIs(path, ".sha256");
    SuffixedIs(path, ".sha512");
    SuffixedIs(path, ".pom");
    var name := Basename(path);
    if StartsWith(name, "maven-metadata") {
      assert name == "maven-metadata" + name[14..];
    }
    if rest :| name == "maven-metadata" + rest { assert name[..14] == "maven-metadata"; }
  }

  // ---------------------------------------------------------------- The manifest

  /** Entry `j` is the last one for its path. */
  ghost predicate LastFor(files: seq<Entry>, j: nat, path: string) {
    j < |files| && files[j].path == path && forall k :: j < k < |files| ==> files[k].path != path
  }

  ghost predicate Listed(files: seq<Entry>, path: string) {
    exists j: nat :: LastFor(files, j, path)
  }

  /** Of two entries for one path the later counts. */
  lemma {:induction false} EntriesAre(files: seq<Entry>, path: string)
    ensures path in Entries(files) <==> Listed(files, path)
    ensures forall j: nat :: LastFor(files, j, path) ==> path in Entries(files) && Entries(files)[path] == files[j]
  {
    if files != [] {
      var n := |files| - 1;
      var earlier := files[..n];
      EntriesAre(earlier, path);
      assert forall k :: 0 <= k < n ==> earlier[k] == files[k];
      if files[n].path == path {
        assert LastFor(files, n, path);
      } else {
        forall j: nat ensures LastFor(files, j, path) <==> LastFor(earlier, j, path) {}
      }
    }
  }

  /** The text that the content digest identifies: the sorted entries, path and digest, tab between, one a line. */
  lemma ContentDigestIs(files: seq<Entry>, c: Crypto) returns (sorted: seq<Entry>, lines: seq<string>)
    ensures multiset(sorted) == multiset(files) && |lines| == |sorted|
    ensures forall i, j :: 0 <= i < j < |sorted| ==> StringLeq(sorted[i].path, sorted[j].path)
    ensures forall i :: 0 <= i < |lines| ==> lines[i] == sorted[i].path + "\t" + sorted[i].sha256
    ensures ContentDigest(files, c) == c.sha256(c.encode(Join(lines, "\n")))
  {
    sorted := SortBy(files, PathLeq);
    lines := Lines(sorted);
    SortPermutes(files, PathLeq);
    StringOrder();
    assert Preorder(PathLeq);
    SortIsSorted(files, PathLeq);
    forall i, j | 0 <= i < j < |sorted| ensures StringLeq(sorted[i].path, sorted[j].path) {
      assert PathLeq(sorted[i], sorted[j]);
    }
  }

  // ---------------------------------------------------------------- What a verification reports

  ghost predicate Unproven(e: Entry) {
    (e.kind == "artifact" || e.kind == "pom") && !e.attested
  }

  ghost function UnprovenPlaces(files: seq<Entry>): set<int> {
    set i | 0 <= i < |files| && Unproven(files[i])
  }

  lemma {:induction false} UnattestedIs(files: seq<Entry>)
    ensures Unattested(files) == |UnprovenPlaces(files)|
  {
    if files != [] {
      var n := |files| - 1;
      UnattestedIs(files[..n]);
      UnprovenUpTo(files[..n], files[n]);
      assert files == files[..n] + [files[n]];
    }
  }

  lemma UnprovenUpTo(files: seq<Entry>, e: Entry)
    ensures UnprovenPlaces(files + [e]) == UnprovenPlaces(files) + if Unproven(e) then {|files|} else {}
  {
    var all := files + [e];
    assert all[|files|] == e && forall i :: 0 <= i < |files| ==> all[i] == files[i];
  }

  /** What is wrong with the file of a listed path. */
  ghost predicate EntryWrong(store: Files, files: seq<Entry>, path: string, reason: Reason, c: Crypto) {
    exists j: nat :: && LastFor(files, j, path)
      && match reason
         case UnsafePath => !IsSafe(path)
         case Missing => IsSafe(path) && path !in store
         case BytesDiffer => IsSafe(path) && path in store && c.sha256(store[path]) != files[j].sha256
         case _ => false
  }

  lemma {:induction false} EntryProblemsAre(store: Files, entries: map<string, Entry>, paths: seq<string>, n: nat,
                                            c: Crypto, q: Problem)
    requires n <= |paths| && forall i :: 0 <= i < |paths| ==> paths[i] in entries
    ensures q in EntryProblems(store, entries, paths, n, c) <==>
            q.At? && exists i :: 0 <= i < n && paths[i] == q.path
                                 && EntryProblem(store, q.path, entries[q.path].sha256, c) == Some(q.reason)
  {
    if n > 0 { EntryProblemsAre(store, entries, paths, n - 1, c, q); }
  }

  lemma EntryWrongIff(store: Files, files: seq<Entry>, path: string, reason: Reason, c: Crypto)
    ensures EntryWrong(store, files, path, reason, c) <==>
      path in Entries(files) && EntryProblem(store, path, Entries(files)[path].sha256, c) == Some(reason)
  {
    EntriesAre(files, path);
    if path in Entries(files) {
      var j: nat :| LastFor(files, j, path);
    }
  }

  /** A listed file is wrong, or a file is not listed. */
  ghost predicate StoreWrong(store: Files, m: Manifest, c: Crypto, q: Problem) {
    && q.At?
    && (|| EntryWrong(store, m.files, q.path, q.reason, c)
        || (q.reason == NotInManifest && q.path in store && !Listed(m.files, q.path)))
  }

  lemma StoreProblemsAre(store: Files, m: Manifest, c: Crypto, q: Problem)
    ensures q in StoreProblems(store, m, c) <==> StoreWrong(store, m, c, q)
  {
    var entries := Entries(m.files);
    var paths, extra := SortedPaths(entries.Keys), SortedPaths(store.Keys - entries.Keys);
    AscendingElements(entries.Keys);
    AscendingElements(store.Keys - entries.Keys);
    EntryProblemsAre(store, entries, paths, |paths|, c, q);
    if q.At? {
      EntryWrongIff(store, m.files, q.path, q.reason, c);
      EntriesAre(m.files, q.path);
      if q.path in entries {
        assert q.path in paths;
        var i :| 0 <= i < |paths| && paths[i] == q.path;
      }
    }
    ExtraAre(extra, q);
  }

  lemma ExtraAre(paths: seq<string>, q: Problem)
    ensures q in ExtraProblems(paths) <==> q.At? && q.reason == NotInManifest && q.path in paths
  {
    if q.At? && q.reason == NotInManifest && q.path in paths {
      var i :| 0 <= i < |paths| && paths[i] == q.path;
      assert ExtraProblems(paths)[i] == q;
    }
  }

  ghost predicate Unattestable(m: Manifest, requireAttested: bool, q: Problem) {
    requireAttested && (!m.attested || UnprovenPlaces(m.files) != {}) && q == NotAttested(|UnprovenPlaces(m.files)|)
  }

  /** Every problem that a verification reports, and no other; the content digest is looked at only if nothing else is
      wrong. */
  lemma VerifyProblemsAre(store: Files, m: Manifest, requireAttested: bool, c: Crypto, q: Problem)
    ensures q in Verify(store, m, requireAttested, c) <==>
      || Unattestable(m, requireAttested, q)
      || StoreWrong(store, m, c, q)
      || (&& q == DigestMismatch && ContentDigest(m.files, c) != m.contentDigest
          && forall r :: !Unattestable(m, requireAttested, r) && !StoreWrong(store, m, c, r))
  {
    var found := FoundFirst(store, m, requireAttested, c);
    FoundFirstAre(store, m, requireAttested, c, q);
    if found != [] { FoundFirstAre(store, m, requireAttested, c, found[0]); }
    if r :| Unattestable(m, requireAttested, r) || StoreWrong(store, m, c, r) {
      FoundFirstAre(store, m, requireAttested, c, r);
    }
  }

  ghost function FoundFirst(store: Files, m: Manifest, requireAttested: bool, c: Crypto): seq<Problem> {
    (if requireAttested then AttestationProblems(m) else []) + StoreProblems(store, m, c)
  }

  lemma FoundFirstAre(store: Files, m: Manifest, requireAttested: bool, c: Crypto, q: Problem)
    ensures q in FoundFirst(store, m, requireAttested, c) <==>
            Unattestable(m, requireAttested, q) || StoreWrong(store, m, c, q)
  {
    UnattestedIs(m.files);
    StoreProblemsAre(store, m, c, q);
  }

  /** The part of a verification that reports a problem. */
  ghost function Part(q: Problem): nat {
    if !q.At? then 0 else if q.reason != NotInManifest then 1 else 2
  }

  ghost predicate Before(q: Problem, r: Problem) {
    Part(q) < Part(r) || (Part(q) == Part(r) && q.At? && StringLeq(q.path, r.path) && q.path != r.path)
  }

  ghost predicate Ordered(problems: seq<Problem>) {
    forall i, j :: 0 <= i < j < |problems| ==> Before(problems[i], problems[j])
  }

  ghost predicate Ascends(paths: seq<string>) {
    forall i, j :: 0 <= i < j < |paths| ==> StringLeq(paths[i], paths[j]) && paths[i] != paths[j]
  }

  lemma {:induction false} EntryProblemsOrdered(store: Files, entries: map<string, Entry>, paths: seq<string>, n: nat,
                                                c: Crypto)
    requires n <= |paths| && Ascends(paths) && forall i :: 0 <= i < |paths| ==> paths[i] in entries
    ensures Ordered(EntryProblems(store, entries, paths, n, c))
    ensures forall q :: q in EntryProblems(store, entries, paths, n, c) ==> Part(q) == 1
  {
    if n > 0 {
      var before, path := EntryProblems(store, entries, paths, n - 1, c), paths[n - 1];
      EntryProblemsOrdered(store, entries, paths, n - 1, c);
      forall q | q in before ensures q.At? && StringLeq(q.path, path) && q.path != path {
        EntryProblemsAre(store, entries, paths, n - 1, c, q);
      }
      match EntryProblem(store, path, entries[path].sha256, c)
      case None =>
      case Some(reason) => OrderedConcat(before, [At(path, reason)]);
    }
  }

  lemma ExtraOrdered(paths: seq<string>)
    requires Ascends(paths)
    ensures Ordered(ExtraProblems(paths))
    ensures forall q :: q in ExtraProblems(paths) ==> Part(q) == 2
  {}

  lemma OrderedConcat(a: seq<Problem>, b: seq<Problem>)
    requires Ordered(a) && Ordered(b) && forall q, r :: q in a && r in b ==> Before(q, r)
    ensures Ordered(a + b)
  {
    var all := a + b;
    forall i, j | 0 <= i < j < |all| ensures Before(all[i], all[j]) {
      if i < |a| <= j { assert a[i] in a && b[j - |a|] in b; }
    }
  }

  lemma PathsAscend(paths: set<string>)
    ensures Ascends(SortedPaths(paths))
  {
    AscendingElements(paths);
  }

  lemma StoreProblemsOrdered(store: Files, m: Manifest, c: Crypto)
    ensures Ordered(StoreProblems(store, m, c))
    ensures forall q :: q in StoreProblems(store, m, c) ==> Part(q) > 0
  {
    var entries := Entries(m.files);
    var paths, extra := SortedPaths(entries.Keys), SortedPaths(store.Keys - entries.Keys);
    PathsAscend(entries.Keys);
    PathsAscend(store.Keys - entries.Keys);
    EntryProblemsOrdered(store, entries, paths, |paths|, c);
    ExtraOrdered(extra);
    OrderedConcat(EntryProblems(store, entries, paths, |paths|, c), ExtraProblems(extra));
  }

  /** A verification reports missing attestations first, then what is wrong with listed files, by path, and then files
      that are not listed, by path; and no problem twice. */
  lemma VerifyProblemsDiffer(store: Files, m: Manifest, requireAttested: bool, c: Crypto)
    ensures Ordered(Verify(store, m, requireAttested, c)) && Distinct(Verify(store, m, requireAttested, c))
  {
    FoundFirstOrdered(store, m, requireAttested, c);
    assert Verify(store, m, requireAttested, c) in {FoundFirst(store, m, requireAttested, c), [DigestMismatch]};
    OrderedDiffer(Verify(store, m, requireAttested, c));
  }

  lemma FoundFirstOrdered(store: Files, m: Manifest, requireAttested: bool, c: Crypto)
    ensures Ordered(FoundFirst(store, m, requireAttested, c))
  {
    StoreProblemsOrdered(store, m, c);
    OrderedConcat(if requireAttested then AttestationProblems(m) else [], StoreProblems(store, m, c));
  }

  lemma OrderedDiffer(problems: seq<Problem>)
    requires Ordered(problems)
    ensures Distinct(problems)
  {
    forall i, j | 0 <= i < j < |problems| ensures problems[i] != problems[j] {
      assert Before(problems[i], problems[j]);
    }
  }
}
