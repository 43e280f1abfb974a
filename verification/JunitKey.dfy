/** The key under which a test's result is found in a JUnit report, and what it cannot tell apart. */
module JunitKey {
  import opened Text
  import opened Merge
  import opened Partition
  import MergeTheorems

  /** The length of `s` up to its first bracket. */
  function BracketAt(s: string): (n: nat)
    ensures n <= |s|
  {
    if s == [] || s[0] == '[' then 0 else 1 + BracketAt(s[1..])
  }

  /** `s.split("::")`. */
  function SplitNode(s: string): (r: seq<string>)
    ensures |r| >= 1
    decreases |s|
  {
    if s == [] then [[]]
    else if |s| >= 2 && s[0] == ':' && s[1] == ':' then [[]] + SplitNode(s[2..])
    else
      var r := SplitNode(s[1..]);
      [[s[0]] + r[0]] + r[1..]
  }

  function Dotted(path: string): string {
    if path == [] then [] else [if path[0] == '/' then '.' else path[0]] + Dotted(path[1..])
  }

  function Module(file: string): string {
    Dotted(if EndsWith(file, ".py") then file[..|file| - 3] else file)
  }

  function KeyOf(id: string): Key {
    var n := BracketAt(id);
    var parts := SplitNode(id[..n]);
    var k := |parts|;
    (Join([Module(parts[0])] + (if k >= 2 then parts[1..k - 1] else []), "."), parts[k - 1] + id[n..])
  }

  // ---------------------------------------------------------------- Node ids

  /** The parts of a node id: its file, its enclosing classes, its function, and its parameters in brackets. */
  datatype Node = Node(file: string, classes: seq<string>, name: string, params: string)

  function Tail(classes: seq<string>, name: string): string {
    if classes == [] then "::" + name else "::" + classes[0] + Tail(classes[1..], name)
  }

  function IdOf(n: Node): string {
    n.file + Tail(n.classes, n.name) + n.params
  }

  ghost predicate Plain(s: string) {
    forall i :: 0 <= i < |s| ==> s[i] != ':' && s[i] != '['
  }

  ghost predicate WellFormed(n: Node) {
    && Plain(n.file) && Plain(n.name) && (n.params == "" || n.params[0] == '[')
    && forall i :: 0 <= i < |n.classes| ==> Plain(n.classes[i]) && '.' !in n.classes[i]
  }

  lemma {:induction false} SplitPiece(a: string, rest: string)
    requires Plain(a)
    ensures SplitNode(a + ("::" + rest)) == [a] + SplitNode(rest)
  {
    var s := a + ("::" + rest);
    if a == [] {
      assert s[2..] == rest;
    } else {
      assert s[1..] == a[1..] + ("::" + rest) && s[0] == a[0];
      SplitPiece(a[1..], rest);
      assert [a[0]] + a[1..] == a;
    }
  }

  lemma {:induction false} SplitLast(a: string)
    requires Plain(a)
    ensures SplitNode(a) == [a]
  {
    if a != [] {
      SplitLast(a[1..]);
      assert [a[0]] + a[1..] == a;
    }
  }

  lemma {:induction false} SplitTail(a: string, classes: seq<string>, name: string)
    requires Plain(a) && Plain(name) && forall i :: 0 <= i < |classes| ==> Plain(classes[i])
    ensures SplitNode(a + Tail(classes, name)) == [a] + classes + [name]
    decreases classes
  {
    if classes == [] {
      SplitPiece(a, name);
      SplitLast(name);
    } else {
      var rest := classes[1..];
      SplitTail(classes[0], rest, name);
      SplitPiece(a, classes[0] + Tail(rest, name));
      assert "::" + classes[0] + Tail(rest, name) == "::" + (classes[0] + Tail(rest, name));
      assert [a] + classes + [name] == [a] + ([classes[0]] + rest + [name]);
    }
  }

  ghost predicate NoBracket(s: string) {
    forall i :: 0 <= i < |s| ==> s[i] != '['
  }

  lemma {:induction false} TailHasNoBracket(classes: seq<string>, name: string)
    requires Plain(name) && forall i :: 0 <= i < |classes| ==> Plain(classes[i])
    ensures NoBracket(Tail(classes, name))
  {
    if classes != [] { TailHasNoBracket(classes[1..], name); }
  }

  lemma {:induction false} BracketAfter(head: string, params: string)
    requires NoBracket(head) && (params == "" || params[0] == '[')
    ensures BracketAt(head + params) == |head|
  {
    if head == [] {
      assert head + params == params;
    } else {
      assert (head + params)[1..] == head[1..] + params;
      BracketAfter(head[1..], params);
    }
  }

  lemma {:induction false} DottedIs(path: string)
    ensures |Dotted(path)| == |path|
    ensures forall i :: 0 <= i < |path| ==> Dotted(path)[i] == if path[i] == '/' then '.' else path[i]
  {
    if path != [] { DottedIs(path[1..]); }
  }

  /** The module of a file: its path without `.py`, with dots for slashes. */
  lemma ModuleIs(stem: string, file: string)
    requires file == stem + ".py" || (file == stem && !EndsWith(stem, ".py"))
    ensures |Module(file)| == |stem|
    ensures forall i :: 0 <= i < |stem| ==> Module(file)[i] == if stem[i] == '/' then '.' else stem[i]
  {
    DottedIs(stem);
    if file == stem + ".py" { assert file[|stem|..] == ".py" && file[..|file| - 3] == stem; }
  }

  /** The key of a node: its module and classes with dots, and its function with the parameters. */
  lemma KeyOfNode(n: Node)
    requires WellFormed(n)
    ensures KeyOf(IdOf(n)) == (Join([Module(n.file)] + n.classes, "."), n.name + n.params)
  {
    var head := n.file + Tail(n.classes, n.name);
    TailHasNoBracket(n.classes, n.name);
    BracketAfter(head, n.params);
    assert IdOf(n)[..|head|] == head && IdOf(n)[|head|..] == n.params;
    SplitTail(n.file, n.classes, n.name);
    var parts := [n.file] + n.classes + [n.name];
    assert parts[1..|parts| - 1] == n.classes;
  }

  lemma JoinedClassesDecide(m: string, a: seq<string>, b: seq<string>)
    requires Join([m] + a, ".") == Join([m] + b, ".")
    requires (forall i :: 0 <= i < |a| ==> '.' !in a[i]) && (forall i :: 0 <= i < |b| ==> '.' !in b[i])
    ensures a == b
  {
    assert ([m] + a)[1..] == a && ([m] + b)[1..] == b;
    if a != [] && b != [] {
      var x, y := Join(a, "."), Join(b, ".");
      assert (m + "." + x)[|m| + 1..] == x && (m + "." + y)[|m| + 1..] == y;
      SplitJoin(a, '.');
      SplitJoin(b, '.');
    } else {
      assert |Join([m], ".")| == |m|;
      assert (a != [] ==> |Join([m] + a, ".")| > |m|) && (b != [] ==> |Join([m] + b, ".")| > |m|);
    }
  }

  lemma {:induction false} TailEnds(classes: seq<string>, name: string)
    ensures Tail(classes, name) == Tail(classes, []) + name
  {
    if classes != [] {
      TailEnds(classes[1..], name);
    }
  }

  lemma IdEnds(n: Node)
    ensures IdOf(n) == n.file + Tail(n.classes, []) + (n.name + n.params)
  {
    TailEnds(n.classes, n.name);
  }

  /** Within one file the key tells all ids apart. */
  lemma KeyDecidesWithinFile(a: Node, b: Node)
    requires WellFormed(a) && WellFormed(b) && a.file == b.file
    ensures KeyOf(IdOf(a)) == KeyOf(IdOf(b)) <==> IdOf(a) == IdOf(b)
  {
    KeyOfNode(a);
    KeyOfNode(b);
    if KeyOf(IdOf(a)) == KeyOf(IdOf(b)) {
      JoinedClassesDecide(Module(a.file), a.classes, b.classes);
      IdEnds(a);
      IdEnds(b);
    }
  }

  // ---------------------------------------------------------------- What it cannot tell apart

  lemma {:induction false} DottedConcat(a: string, b: string)
    ensures Dotted(a + b) == Dotted(a) + Dotted(b)
  {
    if a == [] {
      assert a + b == b;
    } else {
      assert (a + b)[1..] == a[1..] + b;
      DottedConcat(a[1..], b);
    }
  }

  lemma {:induction false} DottedAlone(s: string)
    requires '/' !in s
    ensures Dotted(s) == s
  {
    if s != [] { DottedAlone(s[1..]); }
  }

  lemma ModuleInPackage(package: string, file: string)
    requires '/' !in file
    ensures Module(package + "/" + file + ".py") == Dotted(package) + "." + file
  {
    DottedConcat(package + "/", file);
    DottedConcat(package, "/");
    DottedAlone(file);
    assert Dotted("/") == ".";
  }

  lemma JoinOfTwo(a: string, b: string)
    ensures Join([a] + [b], ".") == a + "." + b && Join([a + "." + b] + [], ".") == a + "." + b
  {
    assert [a] + [b] == [a, b] && [a, b][1..] == [b];
    assert [a + "." + b] + [] == [a + "." + b];
  }

  /** A class in a file, and a file of that name in the package of that name, share a key. */
  lemma ClassAndFileCollide(path: string, cls: string, name: string, params: string)
      returns (inClass: Node, inFile: Node)
    requires Plain(path) && Plain(cls) && Plain(name) && '.' !in cls && '/' !in cls
    requires params == "" || params[0] == '['
    ensures inClass == Node(path + ".py", [cls], name, params)
    ensures inFile == Node(path + "/" + cls + ".py", [], name, params)
    ensures IdOf(inClass) != IdOf(inFile) && KeyOf(IdOf(inClass)) == KeyOf(IdOf(inFile))
  {
    inClass, inFile := Node(path + ".py", [cls], name, params), Node(path + "/" + cls + ".py", [], name, params);
    KeyOfNode(inClass);
    KeyOfNode(inFile);
    ModuleInPackage(path, cls);
    JoinOfTwo(Dotted(path), cls);
    assert IdOf(inClass)[|path|] == '.' && IdOf(inFile)[|path|] == '/';
  }

  /** So a shard that reports one result for two such tests passes its audit. */
  lemma AuditAcceptsOneResultForTwo(shard: string, path: string, cls: string, name: string)
      returns (inClass: string, inFile: string, e: Evidence)
    requires Plain(path) && Plain(cls) && Plain(name) && '.' !in cls && '/' !in cls
    ensures inClass != inFile && e.junit.Some? && |e.junit.value| == 1
    ensures ShardProblems(Slice(shard, [inClass, inFile]), e, KeyOf) == []
  {
    var a, b := ClassAndFileCollide(path, cls, name, "");
    inClass, inFile := IdOf(a), IdOf(b);
    e := MergeTheorems.CollisionAcceptsOneResult(shard, inClass, inFile, KeyOf);
  }
}
