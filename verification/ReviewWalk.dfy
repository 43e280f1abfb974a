/** The directory walk of the review command: the reviewable files under a directory, in one order. */
module ReviewWalk {
  import opened Order
  import opened Text

  /** A directory entry that is not a directory, or a directory with what the system lists for it. */
  datatype Node = File | Dir(link: bool, readable: bool, listing: seq<Named>)
  datatype Named = Named(name: string, node: Node)

  type Path = seq<string>

  datatype Filter = Filter(extensions: set<string>, ignored: set<string>)

  function Lower(s: string): (r: string)
    ensures |r| == |s|
  {
    seq(|s|, i requires 0 <= i < |s| => LowerChar(s[i]))
  }

  /** `os.path.splitext(name)[1]`: from the last dot on, unless only dots come before it. */
  function Extension(name: string): string {
    if name == [] || name[0] == '.' then (if name == [] then [] else Extension(name[1..])) else FromLastDot(name)
  }

  function FromLastDot(name: string): string {
    if name == [] then []
    else if '.' in name[1..] || name[0] != '.' then FromLastDot(name[1..])
    else name
  }

  predicate Reviewable(name: string, f: Filter) {
    Lower(Extension(name)) in f.extensions
  }

  predicate Entered(c: Named, f: Filter) {
    c.node.Dir? && !c.node.link && c.name !in f.ignored && !StartsWith(c.name, ".")
  }

  predicate NameLeq(a: Named, b: Named) {
    StringLeq(a.name, b.name)
  }

  function Under(name: string, paths: seq<Path>): (r: seq<Path>)
    ensures |r| == |paths| && forall i :: 0 <= i < |r| ==> r[i] == [name] + paths[i]
  {
    seq(|paths|, i requires 0 <= i < |paths| => [name] + paths[i])
  }

  function Walk(node: Node, f: Filter): seq<Path>
    decreases node, 0
  {
    if node.File? || !node.readable then []
    else
      var entries := SortBy(node.listing, NameLeq);
      assert forall c :: c in entries ==> c in node.listing by {
        forall c | c in entries ensures c in node.listing { SortKeepsElements(node.listing, NameLeq, c); }
      }
      WalkEntries(entries, node, f)
  }

  function WalkEntries(entries: seq<Named>, ghost parent: Node, f: Filter): seq<Path>
    requires parent.Dir? && forall c :: c in entries ==> c in parent.listing
    decreases parent, 0, |entries|
  {
    if entries == [] then []
    else
      var c := entries[0];
      assert c in parent.listing;
      (if c.node.Dir? then (if Entered(c, f) then Under(c.name, Walk(c.node, f)) else [])
       else if Reviewable(c.name, f) then [[c.name]] else [])
      + WalkEntries(entries[1..], parent, f)
  }

  /** The fallback scan of the review command: the first ten files, and whether it stopped at the cap. */
  method FirstFiles(root: Node, f: Filter) returns (files: seq<Path>, truncated: bool)
    ensures files == (if |Walk(root, f)| <= 10 then Walk(root, f) else Walk(root, f)[..10])
    ensures truncated <==> |Walk(root, f)| >= 10
  {
    var all := Walk(root, f);
    files, truncated := [], false;
    for i := 0 to |all|
      invariant i < CAP && files == all[..i] && !truncated
    {
      files := files + [all[i]];
      if |files| >= CAP {
        truncated := true;
        break;
      }
    }
  }

  const CAP := 10

  // ---------------------------------------------------------------- Extensions

  lemma {:induction false} FromLastDotIs(name: string, k: nat)
    requires k < |name| && name[k] == '.' && '.' !in name[k + 1..]
    ensures FromLastDot(name) == name[k..]
  {
    if k > 0 {
      assert name[1..][k - 1] == '.' && name[1..][k..] == name[k + 1..] && name[1..][k - 1..] == name[k..];
      FromLastDotIs(name[1..], k - 1);
    }
  }

  lemma {:induction false} NoDotNoExtension(name: string)
    requires '.' !in name
    ensures FromLastDot(name) == [] && Extension(name) == []
  {
    if name != [] { NoDotNoExtension(name[1..]); }
  }

  lemma {:induction false} OnlyDotsBefore(name: string, k: nat)
    requires k < |name| && name[k] == '.' && '.' !in name[k + 1..] && forall i :: 0 <= i < k ==> name[i] == '.'
    ensures Extension(name) == []
  {
    if k > 0 {
      assert name[1..][k - 1] == '.' && name[1..][k..] == name[k + 1..];
      OnlyDotsBefore(name[1..], k - 1);
    } else {
      assert name[1..] == name[k + 1..];
      NoDotNoExtension(name[1..]);
    }
  }

  lemma {:induction false} SomethingBefore(name: string, k: nat, i: nat)
    requires i < k < |name| && name[k] == '.' && '.' !in name[k + 1..] && name[i] != '.'
    ensures Extension(name) == name[k..]
  {
    if name[0] == '.' {
      assert name[1..][k - 1] == '.' && name[1..][k..] == name[k + 1..] && name[1..][i - 1] != '.';
      SomethingBefore(name[1..], k - 1, i - 1);
      assert name[1..][k - 1..] == name[k..];
    } else {
      FromLastDotIs(name, k);
    }
  }

  /** An extension is the last dot and what follows it, provided something other than dots comes before; it is compared
      in lower case. */
  lemma ExtensionIs(name: string, k: nat)
    requires k < |name| && name[k] == '.' && '.' !in name[k + 1..]
    ensures Extension(name) == if exists i :: 0 <= i < k && name[i] != '.' then name[k..] else ""
    ensures forall i :: 0 <= i < |name| ==>
      if 'A' <= name[i] <= 'Z' then Lower(name)[i] as int == name[i] as int + 32 else Lower(name)[i] == name[i]
  {
    if i :| 0 <= i < k && name[i] != '.' {
      SomethingBefore(name, k, i);
    } else {
      OnlyDotsBefore(name, k);
    }
  }

  // ---------------------------------------------------------------- Which files

  /** `path` leads from `node` to a reviewable file through entered, readable directories. */
  ghost predicate Eligible(node: Node, path: Path, f: Filter)
    decreases path
  {
    && node.Dir? && node.readable && path != []
    && exists c :: c in node.listing && c.name == path[0] && EligibleBelow(c, path, f)
  }

  ghost predicate EligibleBelow(c: Named, path: Path, f: Filter)
    requires path != []
    decreases path, 0
  {
    if |path| == 1 then c.node.File? && Lower(Extension(c.name)) in f.extensions
    else
      && c.node.Dir? && !c.node.link && c.name !in f.ignored && (c.name == "" || c.name[0] != '.')
      && Eligible(c.node, path[1..], f)
  }

  lemma UnderElements(name: string, paths: seq<Path>, p: Path)
    ensures p in Under(name, paths) <==> p != [] && p[0] == name && p[1..] in paths
  {
    if p != [] && p[0] == name && p[1..] in paths {
      var i :| 0 <= i < |paths| && paths[i] == p[1..];
      assert Under(name, paths)[i] == p;
    }
    if p in Under(name, paths) {
      var i :| 0 <= i < |paths| && Under(name, paths)[i] == p;
      assert p[1..] == paths[i];
    }
  }

  lemma NoEmptyPath(node: Node, f: Filter)
    ensures [] !in Walk(node, f)
  {
    if node.Dir? && node.readable {
      var entries := SortBy(node.listing, NameLeq);
      forall c | c in entries ensures c in node.listing { SortKeepsElements(node.listing, NameLeq, c); }
      NoEmptyPathBelow(entries, node, f);
    }
  }

  lemma {:induction false} NoEmptyPathBelow(entries: seq<Named>, parent: Node, f: Filter)
    requires parent.Dir? && forall c :: c in entries ==> c in parent.listing
    ensures [] !in WalkEntries(entries, parent, f)
    decreases |entries|
  {
    if entries != [] {
      NoEmptyPathBelow(entries[1..], parent, f);
    }
  }

  /** The walk yields exactly the eligible files. */
  lemma WalkIsExact(node: Node, p: Path, f: Filter)
    ensures p in Walk(node, f) <==> Eligible(node, p, f)
    decreases node, 0
  {
    NoEmptyPath(node, f);
    if node.Dir? && node.readable && p != [] {
      var entries := SortBy(node.listing, NameLeq);
      forall c ensures c in entries <==> c in node.listing { SortKeepsElements(node.listing, NameLeq, c); }
      EntriesAreExact(entries, node, p, f);
    }
  }

  lemma {:induction false} EntriesAreExact(entries: seq<Named>, parent: Node, p: Path, f: Filter)
    requires parent.Dir? && (forall c :: c in entries ==> c in parent.listing) && p != []
    ensures p in WalkEntries(entries, parent, f) <==>
            exists c :: c in entries && c.name == p[0] && EligibleBelow(c, p, f)
    decreases parent, 0, |entries|
  {
    if entries != [] {
      var c, rest := entries[0], entries[1..];
      assert c in parent.listing && entries == [c] + rest;
      EntriesAreExact(rest, parent, p, f);
      if c.node.Dir? {
        UnderElements(c.name, Walk(c.node, f), p);
        WalkIsExact(c.node, p[1..], f);
        NoEmptyPath(c.node, f);
      } else {
        assert |p| == 1 ==> p == [p[0]];
      }
    }
  }

  // ---------------------------------------------------------------- In which order

  /** Component by component, by name. */
  predicate PathLeq(p: Path, q: Path) {
    p == [] || (q != [] && (if p[0] == q[0] then PathLeq(p[1..], q[1..]) else StringLeq(p[0], q[0])))
  }

  lemma {:induction false} PathLeqTotal(p: Path, q: Path)
    ensures PathLeq(p, q) || PathLeq(q, p)
  {
    if p != [] && q != [] {
      StringLeqTotal(p[0], q[0]);
      PathLeqTotal(p[1..], q[1..]);
    }
  }

  lemma {:induction false} PathLeqTransitive(p: Path, q: Path, r: Path)
    requires PathLeq(p, q) && PathLeq(q, r)
    ensures PathLeq(p, r)
  {
    if p != [] {
      if p[0] == q[0] == r[0] {
        PathLeqTransitive(p[1..], q[1..], r[1..]);
      } else {
        StringOrder();
      }
    }
  }

  lemma {:induction false} PathLeqAntisymmetric(p: Path, q: Path)
    requires PathLeq(p, q) && PathLeq(q, p)
    ensures p == q
  {
    if p != [] {
      StringOrder();
      PathLeqAntisymmetric(p[1..], q[1..]);
      assert p == [p[0]] + p[1..] && q == [q[0]] + q[1..];
    }
  }

  lemma PathOrder()
    ensures Preorder(PathLeq) && Antisymmetric(PathLeq)
  {
    forall p: Path, q: Path ensures PathLeq(p, q) || PathLeq(q, p) { PathLeqTotal(p, q); }
    forall p: Path, q: Path, r: Path | PathLeq(p, q) && PathLeq(q, r) ensures PathLeq(p, r) {
      PathLeqTransitive(p, q, r);
    }
    forall p: Path, q: Path | PathLeq(p, q) && PathLeq(q, p) ensures p == q { PathLeqAntisymmetric(p, q); }
  }

  lemma NameOrder()
    ensures Preorder(NameLeq)
  {
    StringOrder();
  }

  ghost predicate DistinctNames(entries: seq<Named>) {
    forall i, j :: 0 <= i < j < |entries| ==> entries[i].name != entries[j].name
  }

  /** No directory lists a name twice. */
  ghost predicate ProperTree(node: Node) {
    node.Dir? ==> DistinctNames(node.listing) && forall c :: c in node.listing ==> ProperTree(c.node)
  }

  /** Strictly ascending: in order, and no path twice. */
  ghost predicate Ascends(paths: seq<Path>) {
    Sorted(paths, PathLeq) && Distinct(paths)
  }

  lemma UnderAscends(name: string, paths: seq<Path>)
    requires Ascends(paths)
    ensures Ascends(Under(name, paths))
  {
    var r := Under(name, paths);
    forall i, j | 0 <= i < j < |r| ensures PathLeq(r[i], r[j]) && r[i] != r[j] {
      assert r[i][1..] == paths[i] && r[j][1..] == paths[j];
    }
  }

  lemma AscendsAfter(a: seq<Path>, b: seq<Path>, name: string)
    requires Ascends(a) && Ascends(b)
    requires forall p :: p in a ==> p != [] && p[0] == name
    requires forall q :: q in b ==> q != [] && q[0] != name && StringLeq(name, q[0])
    ensures Ascends(a + b)
  {
    var r := a + b;
    forall i, j | 0 <= i < j < |r| ensures PathLeq(r[i], r[j]) && r[i] != r[j] {
      if i < |a| <= j {
        assert r[i] in a && r[j] in b;
      }
    }
  }

  lemma HeadsAreNames(entries: seq<Named>, parent: Node, f: Filter, p: Path)
    requires parent.Dir? && (forall c :: c in entries ==> c in parent.listing)
    requires p in WalkEntries(entries, parent, f)
    ensures p != [] && exists c :: c in entries && c.name == p[0]
  {
    NoEmptyPathBelow(entries, parent, f);
    EntriesAreExact(entries, parent, p, f);
  }

  /** The walk is strictly ascending. */
  lemma WalkAscends(node: Node, f: Filter)
    requires ProperTree(node)
    ensures Ascends(Walk(node, f))
    decreases node, 0
  {
    if node.Dir? && node.readable {
      var entries := SortBy(node.listing, NameLeq);
      NameOrder();
      SortIsSorted(node.listing, NameLeq);
      SortPermutes(node.listing, NameLeq);
      forall c ensures c in entries <==> c in node.listing { SortKeepsElements(node.listing, NameLeq, c); }
      DistinctNamesSurvive(node.listing, entries);
      EntriesAscend(entries, node, f);
    }
  }

  lemma DistinctNamesSurvive(a: seq<Named>, b: seq<Named>)
    requires DistinctNames(a) && multiset(a) == multiset(b) && forall c :: c in b <==> c in a
    ensures DistinctNames(b)
  {
    DistinctSurvivesPermutation(a, b);
    forall i, j | 0 <= i < j < |b| ensures b[i].name != b[j].name {
      assert b[i] in a && b[j] in a;
    }
  }

  lemma {:induction false} EntriesAscend(entries: seq<Named>, parent: Node, f: Filter)
    requires parent.Dir? && (forall c :: c in entries ==> c in parent.listing)
    requires DistinctNames(entries) && Sorted(entries, NameLeq)
    requires forall c :: c in parent.listing ==> ProperTree(c.node)
    ensures Ascends(WalkEntries(entries, parent, f))
    decreases parent, 0, |entries|
  {
    if entries != [] {
      var c, rest := entries[0], entries[1..];
      assert c in parent.listing;
      EntriesAscend(rest, parent, f);
      var own := if c.node.Dir? then (if Entered(c, f) then Under(c.name, Walk(c.node, f)) else [])
                 else if Reviewable(c.name, f) then [[c.name]] else [];
      if c.node.Dir? {
        WalkAscends(c.node, f);
        UnderAscends(c.name, Walk(c.node, f));
      }
      var below := WalkEntries(rest, parent, f);
      forall q | q in below ensures q != [] && q[0] != c.name && StringLeq(c.name, q[0]) {
        HeadsAreNames(rest, parent, f, q);
        var d :| d in rest && d.name == q[0];
        var j :| 0 <= j < |rest| && rest[j] == d;
        assert entries[j + 1] == d && NameLeq(entries[0], entries[j + 1]);
      }
      AscendsAfter(own, below, c.name);
    }
  }

  lemma SameFilesSameWalk(node: Node, node': Node, f: Filter)
    requires ProperTree(node) && ProperTree(node')
    requires forall p :: Eligible(node, p, f) <==> Eligible(node', p, f)
    ensures Walk(node, f) == Walk(node', f)
  {
    var a, b := Walk(node, f), Walk(node', f);
    forall p ensures p in a <==> p in b {
      WalkIsExact(node, p, f);
      WalkIsExact(node', p, f);
    }
    WalkAscends(node, f);
    WalkAscends(node', f);
    DistinctSameElements(a, b);
    PathOrder();
    SortedIsUnique(a, b, PathLeq);
  }

  /** The same tree, each directory listed in an order of its own. */
  ghost predicate Relisted(node: Node, node': Node)
    decreases node, 1
  {
    match (node, node')
    case (File, File) => true
    case (Dir(link, readable, listing), Dir(link', readable', listing')) =>
      && link == link' && readable == readable'
      && (forall c :: c in listing ==> ListedAs(node, c, node'))
      && (forall d :: d in listing' ==> ListedFrom(node, d))
    case _ => false
  }

  ghost predicate ListedAs(node: Node, c: Named, node': Node)
    requires node.Dir? && c in node.listing && node'.Dir?
    decreases node, 0
  {
    exists d :: d in node'.listing && d.name == c.name && Relisted(c.node, d.node)
  }

  ghost predicate ListedFrom(node: Node, d: Named)
    requires node.Dir?
    decreases node, 0
  {
    exists c :: c in node.listing && c.name == d.name && Relisted(c.node, d.node)
  }

  lemma CounterpartOf(node: Node, node': Node, c: Named) returns (d: Named)
    requires Relisted(node, node') && node.Dir? && c in node.listing
    ensures node'.Dir? && d in node'.listing && d.name == c.name && Relisted(c.node, d.node)
  {
    assert ListedAs(node, c, node');
    d :| d in node'.listing && d.name == c.name && Relisted(c.node, d.node);
  }

  lemma OriginOf(node: Node, node': Node, d: Named) returns (c: Named)
    requires Relisted(node, node') && node'.Dir? && d in node'.listing
    ensures node.Dir? && c in node.listing && c.name == d.name && Relisted(c.node, d.node)
  {
    assert ListedFrom(node, d);
    c :| c in node.listing && c.name == d.name && Relisted(c.node, d.node);
  }

  lemma {:induction false} RelistedForward(node: Node, node': Node, p: Path, f: Filter)
    requires Relisted(node, node') && Eligible(node, p, f)
    ensures Eligible(node', p, f)
    decreases |p|
  {
    var c :| c in node.listing && c.name == p[0] && EligibleBelow(c, p, f);
    var d := CounterpartOf(node, node', c);
    if |p| > 1 {
      RelistedForward(c.node, d.node, p[1..], f);
    }
    assert EligibleBelow(d, p, f);
  }

  lemma {:induction false} RelistedBackward(node: Node, node': Node, p: Path, f: Filter)
    requires Relisted(node, node') && Eligible(node', p, f)
    ensures Eligible(node, p, f)
    decreases |p|
  {
    var d :| d in node'.listing && d.name == p[0] && EligibleBelow(d, p, f);
    var c := OriginOf(node, node', d);
    if |p| > 1 {
      RelistedBackward(c.node, d.node, p[1..], f);
    }
    assert EligibleBelow(c, p, f);
  }

  /** The walk does not depend on the order in which the system lists directories. */
  lemma WalkIgnoresListingOrder(node: Node, node': Node, f: Filter)
    requires ProperTree(node) && ProperTree(node') && Relisted(node, node')
    ensures Walk(node, f) == Walk(node', f)
  {
    forall p ensures Eligible(node, p, f) <==> Eligible(node', p, f) {
      if Eligible(node, p, f) { RelistedForward(node, node', p, f); }
      if Eligible(node', p, f) { RelistedBackward(node, node', p, f); }
    }
    SameFilesSameWalk(node, node', f);
  }

  /** Every eligible file outside the first ten comes after all of them. */
  lemma FirstFilesAreLeast(root: Node, f: Filter, i: nat, p: Path)
    requires ProperTree(root) && i < 10 && i < |Walk(root, f)|
    requires Eligible(root, p, f) && (forall k :: 0 <= k < 10 && k < |Walk(root, f)| ==> Walk(root, f)[k] != p)
    ensures PathLeq(Walk(root, f)[i], p) && Walk(root, f)[i] != p
  {
    WalkIsExact(root, p, f);
    WalkAscends(root, f);
    var j :| 0 <= j < |Walk(root, f)| && Walk(root, f)[j] == p;
  }

  // ---------------------------------------------------------------- Against plain string order

  /** At the first component where they differ, `p` goes into a directory whose name `q` extends by a
      character that sorts before the path separator. */
  ghost predicate Clash(p: Path, q: Path) {
    && p != [] && q != []
    && if p[0] == q[0] then Clash(p[1..], q[1..])
       else |p| > 1 && StartsWith(q[0], p[0]) && |q[0]| > |p[0]| && q[0][|p[0]|] < '/'
  }

  ghost predicate NoSeparator(name: string) {
    forall i :: 0 <= i < |name| ==> name[i] != '/'
  }

  ghost predicate Components(p: Path) {
    p != [] && forall k :: 0 <= k < |p| ==> NoSeparator(p[k])
  }

  lemma {:induction false} PrefixDecides(a: string, s: string, t: string)
    ensures StringLeq(a + s, a + t) <==> StringLeq(s, t)
  {
    if a == [] {
      assert a + s == s && a + t == t;
    } else {
      var x, y := a[1..] + s, a[1..] + t;
      assert a + s == [a[0]] + x && a + t == [a[0]] + y;
      PrefixDecides(a[1..], s, t);
    }
  }

  /** Two strings are compared at the first place where they differ or one of them ends. */
  lemma {:induction false} ComparedAt(x: string, y: string, k: nat)
    requires k <= |x| && k <= |y| && x[..k] == y[..k]
    requires k == |x| || k == |y| || x[k] != y[k]
    ensures StringLeq(x, y) <==> k == |x| || (k < |y| && x[k] < y[k])
    decreases k
  {
    if k > 0 {
      assert x[0] == x[..k][0] == y[..k][0] == y[0];
      assert x[1..][..k - 1] == x[..k][1..] == y[..k][1..] == y[1..][..k - 1];
      ComparedAt(x[1..], y[1..], k - 1);
    }
  }

  lemma {:induction false} FirstDifference(x: string, y: string) returns (k: nat)
    ensures k <= |x| && k <= |y| && x[..k] == y[..k]
    ensures k == |x| || k == |y| || x[k] != y[k]
  {
    if x == [] || y == [] || x[0] != y[0] {
      k := 0;
    } else {
      k := FirstDifference(x[1..], y[1..]);
      assert x[..k + 1] == [x[0]] + x[1..][..k] && y[..k + 1] == [y[0]] + y[1..][..k];
      k := k + 1;
    }
  }

  lemma JoinHead(p: Path)
    requires p != []
    ensures Join(p, "/") == p[0] + Tail(p)
  {
    if |p| > 1 {
      assert p[0] + "/" + Join(p[1..], "/") == p[0] + ("/" + Join(p[1..], "/"));
    }
  }

  function Tail(p: Path): string {
    if |p| <= 1 then [] else "/" + Join(p[1..], "/")
  }

  lemma SameHeadDecides(p: Path, q: Path)
    requires |p| > 1 && |q| > 1 && p[0] == q[0]
    ensures StringLeq(Join(p, "/"), Join(q, "/")) <==> StringLeq(Join(p[1..], "/"), Join(q[1..], "/"))
  {
    JoinHead(p);
    JoinHead(q);
    var s, t := Join(p[1..], "/"), Join(q[1..], "/");
    PrefixDecides("/", s, t);
    PrefixDecides(p[0], "/" + s, "/" + t);
  }

  /** Of two names in order, only a name that the second extends lets what follows decide. */
  lemma NamesDecide(a: string, b: string, x: string, y: string)
    requires StringLeq(a, b) && a != b && (|b| > |a| ==> b[|a|] != '/')
    requires StartsWith(x, a) && StartsWith(y, b) && (|x| == |a| || x[|a|] == '/')
    ensures StringLeq(x, y) <==> !(|x| > |a| && StartsWith(b, a) && |b| > |a| && b[|a|] < '/')
  {
    var k := FirstDifference(a, b);
    ComparedAt(a, b, k);
    assert a[..|a|] == a && b[..|b|] == b;
    assert x[..k] == x[..|a|][..k] && y[..k] == y[..|b|][..k] && y[k] == y[..|b|][k];
    assert k < |a| ==> x[k] == x[..|a|][k];
    ComparedAt(x, y, k);
    assert StartsWith(b, a) <==> k == |a|;
  }

  lemma JoinedName(p: Path) returns (x: string)
    requires p != []
    ensures x == Join(p, "/") && StartsWith(x, p[0])
    ensures if |p| == 1 then |x| == |p[0]| else |x| > |p[0]| && x[|p[0]|] == '/'
  {
    JoinHead(p);
    x := Join(p, "/");
    if |p| > 1 {
      assert x == p[0] + ("/" + Join(p[1..], "/"));
    }
  }

  lemma {:induction false} DifferentHeadsDecide(p: Path, q: Path)
    requires p != [] && q != [] && StringLeq(p[0], q[0]) && p[0] != q[0] && NoSeparator(q[0])
    ensures StringLeq(Join(p, "/"), Join(q, "/"))
         <==> !(|p| > 1 && StartsWith(q[0], p[0]) && |q[0]| > |p[0]| && q[0][|p[0]|] < '/')
  {
    var a, b := p[0], q[0];
    var x := JoinedName(p);
    var y := JoinedName(q);
    NamesDecide(a, b, x, y);
  }

  lemma {:induction false} StringOrderIff(p: Path, q: Path)
    requires Components(p) && Components(q) && PathLeq(p, q) && p != q
    ensures StringLeq(Join(p, "/"), Join(q, "/")) <==> !Clash(p, q)
  {
    if p[0] != q[0] {
      DifferentHeadsDecide(p, q);
    } else {
      if |p| > 1 {
        SameHeadDecides(p, q);
        StringOrderIff(p[1..], q[1..]);
      } else {
        JoinHead(p);
        JoinHead(q);
        PrefixDecides(p[0], [], Tail(q));
      }
    }
  }

  /** No name in the tree holds a path separator. */
  ghost predicate NamesAreComponents(node: Node) {
    node.Dir? ==> forall c :: c in node.listing ==> NoSeparator(c.name) && NamesAreComponents(c.node)
  }

  lemma {:induction false} EligibleComponents(node: Node, p: Path, f: Filter)
    requires NamesAreComponents(node) && Eligible(node, p, f)
    ensures Components(p)
    decreases |p|
  {
    var c :| c in node.listing && c.name == p[0] && EligibleBelow(c, p, f);
    if |p| > 1 {
      EligibleComponents(c.node, p[1..], f);
      assert forall k :: 1 <= k < |p| ==> p[k] == p[1..][k - 1];
    }
  }

  function JoinedPaths(paths: seq<Path>): (r: seq<string>)
    ensures |r| == |paths| && forall i :: 0 <= i < |r| ==> r[i] == Join(paths[i], "/")
  {
    Each(paths, p => Join(p, "/"))
  }

  /** Two eligible paths clash. */
  ghost predicate ClashBelow(root: Node, p: Path, q: Path, f: Filter) {
    Eligible(root, p, f) && Eligible(root, q, f) && PathLeq(p, q) && p != q && Clash(p, q)
  }

  /** The order of two places of the walk. */
  lemma PlacesInStringOrderIff(root: Node, f: Filter, i: nat, j: nat)
    requires ProperTree(root) && NamesAreComponents(root) && i < j < |Walk(root, f)|
    ensures var p, q := Walk(root, f)[i], Walk(root, f)[j];
      StringLeq(Join(p, "/"), Join(q, "/")) <==> !ClashBelow(root, p, q, f)
  {
    var p, q := Walk(root, f)[i], Walk(root, f)[j];
    WalkAscends(root, f);
    WalkIsExact(root, p, f);
    WalkIsExact(root, q, f);
    EligibleComponents(root, p, f);
    EligibleComponents(root, q, f);
    StringOrderIff(p, q);
  }

  /** Where two eligible paths are in the walk. */
  lemma PlacesOf(root: Node, f: Filter, p: Path, q: Path) returns (i: nat, j: nat)
    requires ProperTree(root) && Eligible(root, p, f) && Eligible(root, q, f) && PathLeq(p, q) && p != q
    ensures i < j < |Walk(root, f)| && Walk(root, f)[i] == p && Walk(root, f)[j] == q
  {
    WalkIsExact(root, p, f);
    WalkIsExact(root, q, f);
    WalkAscends(root, f);
    i :| 0 <= i < |Walk(root, f)| && Walk(root, f)[i] == p;
    j :| 0 <= j < |Walk(root, f)| && Walk(root, f)[j] == q;
    if j < i { PathLeqAntisymmetric(p, q); }
  }

  /** The walk ascends as path strings exactly when no two of the files it reaches clash. */
  lemma WalkInStringOrderIff(root: Node, f: Filter)
    requires ProperTree(root) && NamesAreComponents(root)
    ensures Sorted(JoinedPaths(Walk(root, f)), StringLeq) <==> forall p, q :: !ClashBelow(root, p, q, f)
  {
    var w := Walk(root, f);
    var strings := JoinedPaths(w);
    if Sorted(strings, StringLeq) {
      forall p, q ensures !ClashBelow(root, p, q, f) {
        if ClashBelow(root, p, q, f) {
          var i, j := PlacesOf(root, f, p, q);
          assert strings[i] == Join(p, "/") && strings[j] == Join(q, "/");
          PlacesInStringOrderIff(root, f, i, j);
        }
      }
    }
    if forall p, q :: !ClashBelow(root, p, q, f) {
      forall i, j | 0 <= i < j < |strings| ensures StringLeq(strings[i], strings[j]) {
        PlacesInStringOrderIff(root, f, i, j);
      }
    }
  }

  lemma FileIsEligible(node: Node, name: string, f: Filter)
    requires node.Dir? && node.readable && Named(name, File) in node.listing && Reviewable(name, f)
    ensures Eligible(node, [name], f)
  {
    assert EligibleBelow(Named(name, File), [name], f);
  }

  lemma ChildIsEligible(node: Node, c: Named, p: Path, f: Filter)
    requires node.Dir? && node.readable && c in node.listing && Entered(c, f) && Eligible(c.node, p, f)
    ensures Eligible(node, [c.name] + p, f)
  {
    assert ([c.name] + p)[1..] == p;
    assert EligibleBelow(c, [c.name] + p, f);
  }

  /** A directory `a` that holds `x.py`, beside a file `a.py`, whatever else is there: the walk is not in the order of
      the path strings. */
  lemma WalkIsNotStringOrder(root: Node, a: Named, f: Filter)
    requires ProperTree(root) && NamesAreComponents(root) && root.Dir? && root.readable
    requires a in root.listing && a.name == "a" && a.node.Dir? && !a.node.link && a.node.readable
    requires Named("x.py", File) in a.node.listing && Named("a.py", File) in root.listing
    requires "a" !in f.ignored && ".py" in f.extensions
    ensures !Sorted(JoinedPaths(Walk(root, f)), StringLeq)
  {
    var p, q: Path := ["a", "x.py"], ["a.py"];
    PythonIsReviewable("x", f);
    PythonIsReviewable("a", f);
    FileIsEligible(root, "a.py", f);
    FileIsEligible(a.node, "x.py", f);
    ChildIsEligible(root, a, ["x.py"], f);
    assert p == [a.name] + ["x.py"];
    assert StringLeq("a", "a.py") && StartsWith("a.py", "a") && "a.py"[1] < '/';
    assert ClashBelow(root, p, q, f);
    WalkInStringOrderIff(root, f);
  }

  lemma PythonIsReviewable(stem: string, f: Filter)
    requires |stem| == 1 && stem[0] != '.' && ".py" in f.extensions
    ensures Reviewable(stem + ".py", f)
  {
    var name := stem + ".py";
    assert name == [stem[0], '.', 'p', 'y'] && name[1..] == ".py" && ".py"[1..] == "py";
    assert FromLastDot(".py") == ".py" && Extension(name) == FromLastDot(name) == ".py";
    assert Lower(".py") == ".py";
  }
}
