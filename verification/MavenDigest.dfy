/** The content digest identifies exactly the frozen (path, sha256) pairs. */
module MavenDigest {
  import opened Order
  import opened Text
  import opened MavenRepo
  import opened MavenTheorems

  /** Every file of `a` is in `b` with the same frozen digest. */
  ghost predicate Covers(a: seq<Entry>, b: seq<Entry>) {
    forall i :: 0 <= i < |a| ==> Listed(a[i], b)
  }

  ghost predicate Listed(e: Entry, files: seq<Entry>) {
    exists j :: 0 <= j < |files| && files[j].path == e.path && files[j].sha256 == e.sha256
  }

  /** No tab in a path, and no line feed in either part of a line. */
  ghost predicate Clean(files: seq<Entry>) {
    forall i :: 0 <= i < |files| ==> '\t' !in files[i].path && '\n' !in files[i].path && '\n' !in files[i].sha256
  }

  // ---------------------------------------------------------------- Lines

  lemma TabSplits(a: string, b: string, x: string, y: string)
    requires '\t' !in a && '\t' !in b && a + "\t" + x == b + "\t" + y
    ensures a == b && x == y
  {
    var s, t := a + "\t" + x, b + "\t" + y;
    assert s[|a|] == '\t' && t[|b|] == '\t';
    assert forall i :: 0 <= i < |a| ==> s[i] == a[i];
    assert forall i :: 0 <= i < |b| ==> t[i] == b[i];
    assert a == s[..|a|] && b == t[..|b|] && x == s[|a| + 1..] && y == t[|b| + 1..];
  }

  lemma LineHasTab(e: Entry)
    ensures '\t' in Line(e) && ('\n' !in e.path && '\n' !in e.sha256 ==> '\n' !in Line(e))
  {
    assert Line(e)[|e.path|] == '\t';
  }

  lemma JoinedTabs(files: seq<Entry>)
    requires files != []
    ensures Join(Lines(files), "\n") != []
  {
    LineHasTab(files[0]);
  }

  lemma JoinedLinesDecide(a: seq<Entry>, b: seq<Entry>)
    requires Clean(a) && Clean(b) && Join(Lines(a), "\n") == Join(Lines(b), "\n")
    ensures Lines(a) == Lines(b)
  {
    if a == [] {
      if b != [] { JoinedTabs(b); }
    } else {
      JoinedTabs(a);
      forall i | 0 <= i < |a| ensures '\n' !in Lines(a)[i] { LineHasTab(a[i]); }
      forall i | 0 <= i < |b| ensures '\n' !in Lines(b)[i] { LineHasTab(b[i]); }
      SplitJoin(Lines(a), '\n');
      SplitJoin(Lines(b), '\n');
    }
  }

  lemma LinesDecide(a: seq<Entry>, b: seq<Entry>)
    requires Clean(a) && Clean(b) && Lines(a) == Lines(b)
    ensures Covers(a, b)
  {
    forall i | 0 <= i < |a| ensures Listed(a[i], b) {
      assert Lines(a)[i] == Lines(b)[i];
      TabSplits(a[i].path, b[i].path, a[i].sha256, b[i].sha256);
    }
  }

  // ---------------------------------------------------------------- Sorting

  lemma PathOrder()
    ensures Preorder(PathLeq)
  {
    StringOrder();
    forall x, y ensures PathLeq(x, y) || PathLeq(y, x) {
      assert StringLeq(x.path, y.path) || StringLeq(y.path, x.path);
    }
    forall x, y, z | PathLeq(x, y) && PathLeq(y, z) ensures PathLeq(x, z) {
      StringLeqTransitive(x.path, y.path, z.path);
    }
  }

  lemma SortKeepsFiles(files: seq<Entry>)
    ensures var sorted := SortBy(files, PathLeq);
      Sorted(sorted, PathLeq) && Covers(files, sorted) && Covers(sorted, files)
  {
    var sorted := SortBy(files, PathLeq);
    PathOrder();
    SortIsSorted(files, PathLeq);
    forall i | 0 <= i < |files| ensures Listed(files[i], sorted) {
      SortKeepsElements(files, PathLeq, files[i]);
      assert files[i] in sorted;
    }
    forall i | 0 <= i < |sorted| ensures Listed(sorted[i], files) {
      SortKeepsElements(files, PathLeq, sorted[i]);
      assert sorted[i] in files;
    }
  }

  lemma CoversThrough(a: seq<Entry>, b: seq<Entry>, d: seq<Entry>)
    requires Covers(a, b) && Covers(b, d)
    ensures Covers(a, d)
  {
    forall i | 0 <= i < |a| ensures Listed(a[i], d) {
      assert Listed(a[i], b);
      var j :| 0 <= j < |b| && b[j].path == a[i].path && b[j].sha256 == a[i].sha256;
      assert Listed(b[j], d);
    }
  }

  /** Sorted lists of distinct paths that cover each other start with the same file. */
  lemma SameHead(a: seq<Entry>, b: seq<Entry>)
    requires a != [] && b != [] && Sorted(a, PathLeq) && Sorted(b, PathLeq) && DistinctPaths(a) && DistinctPaths(b)
    requires Covers(a, b) && Covers(b, a)
    ensures a[0].path == b[0].path && a[0].sha256 == b[0].sha256
  {
    assert Listed(a[0], b) && Listed(b[0], a);
    var j :| 0 <= j < |b| && b[j].path == a[0].path && b[j].sha256 == a[0].sha256;
    var i :| 0 <= i < |a| && a[i].path == b[0].path && a[i].sha256 == b[0].sha256;
    if i > 0 && j > 0 {
      assert PathLeq(a[0], a[i]) && PathLeq(b[0], b[j]);
      StringLeqAntisymmetric(a[0].path, b[0].path);
    }
  }

  lemma TailCovers(a: seq<Entry>, b: seq<Entry>)
    requires a != [] && b != [] && DistinctPaths(a) && Covers(a, b) && a[0].path == b[0].path
    ensures Covers(a[1..], b[1..])
  {
    forall i | 0 <= i < |a[1..]| ensures Listed(a[1..][i], b[1..]) {
      assert Listed(a[i + 1], b) && a[i + 1].path != a[0].path;
      var j :| 0 <= j < |b| && b[j].path == a[i + 1].path && b[j].sha256 == a[i + 1].sha256;
      assert b[1..][j - 1] == b[j];
    }
  }

  lemma {:induction false} SortedLinesAreUnique(a: seq<Entry>, b: seq<Entry>)
    requires Sorted(a, PathLeq) && Sorted(b, PathLeq) && DistinctPaths(a) && DistinctPaths(b)
    requires Covers(a, b) && Covers(b, a)
    ensures Lines(a) == Lines(b)
  {
    assert (a != [] ==> Listed(a[0], b)) && (b != [] ==> Listed(b[0], a));
    if a != [] {
      SameHead(a, b);
      TailCovers(a, b);
      TailCovers(b, a);
      SortedLinesAreUnique(a[1..], b[1..]);
      LinesHead(a);
      LinesHead(b);
    }
  }

  lemma LinesHead(files: seq<Entry>)
    requires files != []
    ensures Lines(files) == [Line(files[0])] + Lines(files[1..])
  {}

  // ---------------------------------------------------------------- Identity

  /** Two manifests have one digest exactly when they freeze the same bytes at the same paths, in whatever order. */
  lemma DigestIdentifiesContent(a: seq<Entry>, b: seq<Entry>, c: Crypto)
    requires Injective(c.sha256) && Injective(c.encode)
    requires Clean(a) && Clean(b) && DistinctPaths(a) && DistinctPaths(b)
    ensures ContentDigest(a, c) == ContentDigest(b, c) <==> Covers(a, b) && Covers(b, a)
  {
    var sa, sb := SortBy(a, PathLeq), SortBy(b, PathLeq);
    SortKeepsFiles(a);
    SortKeepsFiles(b);
    SortKeepsClean(a);
    SortKeepsClean(b);
    if ContentDigest(a, c) == ContentDigest(b, c) {
      JoinedLinesDecide(sa, sb);
      LinesDecide(sa, sb);
      LinesDecide(sb, sa);
      CoversThrough(a, sa, sb);
      CoversThrough(a, sb, b);
      CoversThrough(b, sb, sa);
      CoversThrough(b, sa, a);
    }
    if Covers(a, b) && Covers(b, a) {
      CoversThrough(sa, a, b);
      CoversThrough(sa, b, sb);
      CoversThrough(sb, b, a);
      CoversThrough(sb, a, sa);
      SortedLinesAreUnique(sa, sb);
    }
  }

  lemma SortKeepsClean(files: seq<Entry>)
    requires Clean(files) && DistinctPaths(files)
    ensures Clean(SortBy(files, PathLeq)) && DistinctPaths(SortBy(files, PathLeq))
  {
    var sorted := SortBy(files, PathLeq);
    SortPermutes(files, PathLeq);
    PermutedPathsDistinct(files, sorted);
    forall i | 0 <= i < |sorted|
      ensures '\t' !in sorted[i].path && '\n' !in sorted[i].path && '\n' !in sorted[i].sha256
    {
      SortKeepsElements(files, PathLeq, sorted[i]);
      assert sorted[i] in files;
    }
  }

  // ---------------------------------------------------------------- Why tabs and line feeds must be excluded

  /** The path that spells out the line of (x, h) and the beginning of the line of y. */
  function Disguise(x: string, h: string, y: string): string {
    x + "\t" + h + "\n" + y
  }

  lemma TextOfOne(d: Entry)
    ensures Join(Lines(SortBy([d], PathLeq)), "\n") == Line(d)
  {
    assert [d][1..] == [] && SortBy([d], PathLeq) == [d];
    assert Lines([d]) == [Line(d)];
  }

  lemma TextOfTwo(e: Entry, f: Entry)
    requires PathLeq(e, f)
    ensures Join(Lines(SortBy([e, f], PathLeq)), "\n") == Line(e) + "\n" + Line(f)
  {
    assert [e, f][1..] == [f] && [f][1..] == [] && SortBy([f], PathLeq) == [f];
    assert SortBy([e, f], PathLeq) == [e] + [f];
    assert Lines([e] + [f]) == [Line(e), Line(f)] && [Line(e), Line(f)][1..] == [Line(f)];
  }

  /** One file of such a path has the digest of the two files it spells out. */
  lemma DisguisedPathCollides(x: string, h: string, y: string, g: string, kind: string, c: Crypto)
    requires x != y && StringLeq(x, y)
    ensures
      var one := [Entry(Disguise(x, h, y), kind, g, true)];
      var two := [Entry(x, kind, h, true), Entry(y, kind, g, true)];
      && DistinctPaths(one) && DistinctPaths(two) && !Covers(two, one)
      && ContentDigest(one, c) == ContentDigest(two, c)
  {
    var e, f, d := Entry(x, kind, h, true), Entry(y, kind, g, true), Entry(Disguise(x, h, y), kind, g, true);
    assert |d.path| > |x| && |d.path| > |y|;
    assert !Listed([e, f][0], [d]);
    TextOfOne(d);
    TextOfTwo(e, f);
    assert Line(d) == Line(e) + "\n" + Line(f);
  }

  lemma {:induction false} NoParentBetween(a: string, middle: string, b: string)
    requires '/' !in middle && '\t' in middle && ".." !in Split(a, '/') && ".." !in Split(b, '/')
    ensures ".." !in Split(a + (middle + b), '/')
    decreases |a|
  {
    var rest := middle + b;
    if '/' in a {
      var head, tail := FirstPiece(a, '/');
      assert a + rest == head + ['/'] + (tail + rest);
      SplitAfter(head, '/', tail);
      SplitAfter(head, '/', tail + rest);
      assert [head][0] == Split(a, '/')[0];
      assert forall k :: 0 <= k < |Split(tail, '/')| ==> Split(a, '/')[k + 1] == Split(tail, '/')[k];
      NoParentBetween(tail, middle, b);
    } else {
      NoParentInLast(a + middle, b);
      assert a + rest == (a + middle) + b;
    }
  }

  lemma NoParentInLast(front: string, b: string)
    requires '/' !in front && '\t' in front && ".." !in Split(b, '/')
    ensures ".." !in Split(front + b, '/')
  {
    SplitPrepend(front, b, '/');
    assert '\t' in front + Split(b, '/')[0];
    assert '\t' !in "..";
  }

  /** And the safety test lets it through, whatever safe paths it is made of. */
  lemma DisguiseIsSafe(x: string, h: string, y: string)
    requires IsSafe(x) && IsSafe(y) && '/' !in h && '\\' !in h
    ensures IsSafe(Disguise(x, h, y))
  {
    var middle := "\t" + h + "\n";
    assert Disguise(x, h, y) == x + (middle + y);
    assert middle[0] == '\t';
    NoParentBetween(x, middle, y);
  }
}
