/** The frozen Maven repository: a store of files, the manifest that freezes it, and the operations over both. */
module MavenRepo {
  import opened Wrappers
  import opened Order
  import opened Text

  newtype byte = x: int | 0 <= x < 256
  type Bytes = seq<byte>

  /** The digests, in lower case hexadecimal, and the encoding of text. */
  datatype Crypto = Crypto(sha256: Bytes -> string, sha1: Bytes -> string, encode: string -> Bytes)

  /** A manifest entry; `attested` says that its provenance names what it was compared with. */
  datatype Entry = Entry(path: string, kind: string, sha256: string, attested: bool)

  datatype Manifest = Manifest(files: seq<Entry>, contentDigest: string, attested: bool)

  type Files = map<string, Bytes>

  const CHECKSUM := "checksum"
  const METADATA := "metadata"
  const POM := "pom"
  const ARTIFACT := "artifact"
  const SHA1_SUFFIX := ".sha1"
  const STAGING_PATH_PREFIX := "/home/maven/repository-staging/to-ibiblio/maven2/"

  datatype Reason =
    | UnsafePath | Missing | BytesDiffer | NotInManifest
    | CannotFetch | WrongBytes | NotSha1 | NoVerifiedPayload | NoRendering | Sha1Differs

  datatype Problem =
    | At(path: string, reason: Reason)
    | NotAttested(unattested: nat)
    | DigestMismatch

  // ---------------------------------------------------------------- Paths

  predicate IsSafe(path: string) {
    path != [] && path[0] != '/' && ".." !in Split(path, '/') && '\\' !in path
  }

  /** The part of a path after its last slash. */
  function Basename(path: string): (r: string)
    ensures |r| <= |path|
  {
    if '/' in path then Basename(path[1..]) else path
  }

  predicate IsChecksum(path: string) {
    EndsWith(path, ".sha1") || EndsWith(path, ".md5") || EndsWith(path, ".sha256") || EndsWith(path, ".sha512")
  }

  function KindOf(path: string): string {
    if IsChecksum(path) then CHECKSUM
    else if StartsWith(Basename(path), "maven-metadata") then METADATA
    else if EndsWith(path, ".pom") then POM
    else ARTIFACT
  }

  // ---------------------------------------------------------------- Manifest entries

  /** The entries by path; of two entries for one path the later is kept. */
  function Entries(files: seq<Entry>): map<string, Entry> {
    if files == [] then map[] else Entries(files[..|files| - 1])[files[|files| - 1].path := files[|files| - 1]]
  }

  predicate Holds(store: Files, e: Entry, c: Crypto) {
    e.path in store && c.sha256(store[e.path]) == e.sha256
  }

  function Line(e: Entry): string {
    e.path + "\t" + e.sha256
  }

  predicate PathLeq(a: Entry, b: Entry) {
    StringLeq(a.path, b.path)
  }

  function Lines(files: seq<Entry>): seq<string> {
    Each(files, Line)
  }

  /** The content identity of a list of entries. */
  function ContentDigest(files: seq<Entry>, c: Crypto): string {
    c.sha256(c.encode(Join(Lines(SortBy(files, PathLeq)), "\n")))
  }

  // ---------------------------------------------------------------- Verify

  predicate NeedsAttestation(e: Entry) {
    (e.kind == ARTIFACT || e.kind == POM) && !e.attested
  }

  function Unattested(files: seq<Entry>): (r: nat)
    ensures r == 0 <==> forall i :: 0 <= i < |files| ==> !NeedsAttestation(files[i])
  {
    if files == [] then 0
    else Unattested(files[..|files| - 1]) + if NeedsAttestation(files[|files| - 1]) then 1 else 0
  }

  function AttestationProblems(m: Manifest): seq<Problem> {
    if m.attested && Unattested(m.files) == 0 then [] else [NotAttested(Unattested(m.files))]
  }

  function EntryProblem(store: Files, path: string, frozen: string, c: Crypto): Option<Reason> {
    if !IsSafe(path) then Some(UnsafePath)
    else if path !in store then Some(Missing)
    else if c.sha256(store[path]) != frozen then Some(BytesDiffer)
    else None
  }

  function EntryProblems(store: Files, entries: map<string, Entry>, paths: seq<string>, n: nat, c: Crypto): seq<Problem>
    requires n <= |paths| && forall i :: 0 <= i < |paths| ==> paths[i] in entries
  {
    if n == 0 then [] else
      var before := EntryProblems(store, entries, paths, n - 1, c);
      match EntryProblem(store, paths[n - 1], entries[paths[n - 1]].sha256, c)
      case None => before
      case Some(reason) => before + [At(paths[n - 1], reason)]
  }

  function SortedPaths(paths: set<string>): (r: seq<string>)
    ensures forall i :: 0 <= i < |r| ==> r[i] in paths
  {
    AscendingElements(paths);
    Ascending(paths)
  }

  function ExtraProblems(paths: seq<string>): (r: seq<Problem>)
    ensures |r| == |paths|
  {
    seq(|paths|, i requires 0 <= i < |paths| => At(paths[i], NotInManifest))
  }

  function StoreProblems(store: Files, m: Manifest, c: Crypto): seq<Problem> {
    var entries := Entries(m.files);
    var paths := SortedPaths(entries.Keys);
    EntryProblems(store, entries, paths, |paths|, c) + ExtraProblems(SortedPaths(store.Keys - entries.Keys))
  }

  function Verify(store: Files, m: Manifest, requireAttested: bool, c: Crypto): seq<Problem> {
    var problems := (if requireAttested then AttestationProblems(m) else []) + StoreProblems(store, m, c);
    if problems == [] && ContentDigest(m.files, c) != m.contentDigest then [DigestMismatch] else problems
  }

  // ---------------------------------------------------------------- Sidecars

  datatype Rendering = Rendering(renderer: string, content: Bytes)

  function Bare(payload: Bytes, c: Crypto): Bytes {
    c.encode(c.sha1(payload))
  }

  /** The closed set of texts that a frozen `.sha1` entry may have. */
  function Renderings(payload: Bytes, path: string, c: Crypto): (r: seq<Rendering>)
    ensures |r| == 3
  {
    [Rendering("bare", Bare(payload, c)),
     Rendering("basename", c.encode(c.sha1(payload) + "  " + Basename(path) + "\n")),
     Rendering("staging-path", c.encode(c.sha1(payload) + "  " + STAGING_PATH_PREFIX + path + "\n"))]
  }

  datatype Choice = Chosen(content: Bytes, renderer: string) | NoMatch | Ambiguous

  function Matching(candidates: seq<Rendering>, frozen: string, c: Crypto): seq<Rendering> {
    if candidates == [] then []
    else
      (if c.sha256(candidates[0].content) == frozen then [candidates[0]] else [])
      + Matching(candidates[1..], frozen, c)
  }

  function SelectSidecar(candidates: seq<Rendering>, frozen: string, c: Crypto): Choice {
    var matching := Matching(candidates, frozen, c);
    if matching == [] then NoMatch
    else if |matching| > 1 then Ambiguous
    else Chosen(matching[0].content, matching[0].renderer)
  }

  // ---------------------------------------------------------------- Fetch

  /** What the network answers to the n-th request, for a path; it may lie, fail, and change its mind. */
  type Network = (nat, string) -> Option<Bytes>

  datatype Write = Write(path: string, content: Bytes)

  /** The store, with what has been asked, written and complained about. */
  datatype State = State(store: Files, requests: seq<string>, writes: seq<Write>, problems: seq<Problem>)

  function Complain(s: State, path: string, reason: Reason): State {
    s.(problems := s.problems + [At(path, reason)])
  }

  function Put(s: State, path: string, content: Bytes): State {
    s.(store := s.store[path := content], writes := s.writes + [Write(path, content)])
  }

  /** The first pass over one entry: payloads are downloaded, sidecars left for later. */
  function PayloadStep(s: State, e: Entry, net: Network, c: Crypto): State {
    if !IsSafe(e.path) then Complain(s, e.path, UnsafePath)
    else if e.kind == CHECKSUM || Holds(s.store, e, c) then s
    else
      var asked := s.(requests := s.requests + [e.path]);
      match net(|s.requests|, e.path)
      case None => Complain(asked, e.path, CannotFetch)
      case Some(body) =>
        if c.sha256(body) != e.sha256 then Complain(asked, e.path, WrongBytes) else Put(asked, e.path, body)
  }

  predicate IsSidecar(e: Entry) {
    IsSafe(e.path) && e.kind == CHECKSUM
  }

  /** The second pass over one entry: a sidecar is rendered from its verified payload. */
  function SidecarStep(s: State, e: Entry, entries: map<string, Entry>, c: Crypto): State {
    if Holds(s.store, e, c) then s
    else if !EndsWith(e.path, SHA1_SUFFIX) then Complain(s, e.path, NotSha1)
    else
      var payload := e.path[..|e.path| - |SHA1_SUFFIX|];
      if payload !in entries || payload !in s.store || c.sha256(s.store[payload]) != entries[payload].sha256 then
        Complain(s, e.path, NoVerifiedPayload)
      else
        match SelectSidecar(Renderings(s.store[payload], payload, c), e.sha256, c)
        case Chosen(content, _) => Put(s, e.path, content)
        case _ => Complain(s, e.path, NoRendering)
  }

  /** After the first pass has seen `n` entries. */
  function Payloads(files: seq<Entry>, n: nat, s: State, net: Network, c: Crypto): State
    requires n <= |files|
  {
    if n == 0 then s else PayloadStep(Payloads(files, n - 1, s, net, c), files[n - 1], net, c)
  }

  /** After the second pass has seen `n` entries. */
  function Sidecars(files: seq<Entry>, n: nat, s: State, entries: map<string, Entry>, c: Crypto): State
    requires n <= |files|
  {
    if n == 0 then s else
      var before := Sidecars(files, n - 1, s, entries, c);
      if IsSidecar(files[n - 1]) then SidecarStep(before, files[n - 1], entries, c) else before
  }

  function Fetched(files: seq<Entry>, s: State, net: Network, c: Crypto): State {
    Sidecars(files, |files|, Payloads(files, |files|, s, net, c), Entries(files), c)
  }

  /** A repository directory, with a log of the requests made for it and of the files written to it. */
  class Repository {
    var store: Files
    var requests: seq<string>
    ghost var writes: seq<Write>

    constructor (files: Files)
      ensures store == files && requests == [] && writes == []
    {
      store, requests, writes := files, [], [];
    }

    ghost function StateWith(problems: seq<Problem>): State
      reads this
    {
      State(store, requests, writes, problems)
    }

    method WriteFile(path: string, content: Bytes)
      modifies this
      ensures requests == old(requests)
      ensures store == old(store)[path := content] && writes == old(writes) + [Write(path, content)]
    {
      store := store[path := content];
      writes := writes + [Write(path, content)];
    }

    method FetchPayload(e: Entry, net: Network, c: Crypto) returns (problem: Option<Reason>)
      requires IsSafe(e.path) && e.kind != CHECKSUM
      modifies this
      ensures StateWith(if problem.Some? then [At(e.path, problem.value)] else [])
           == PayloadStep(old(StateWith([])), e, net, c)
    {
      if e.path in store && c.sha256(store[e.path]) == e.sha256 {
        return None;
      }
      var answer := net(|requests|, e.path);
      requests := requests + [e.path];
      match answer {
        case None => return Some(CannotFetch);
        case Some(body) =>
          if c.sha256(body) != e.sha256 {
            return Some(WrongBytes);
          }
          WriteFile(e.path, body);
          return None;
      }
    }

    method DeriveSidecar(e: Entry, entries: map<string, Entry>, c: Crypto) returns (problem: Option<Reason>)
      modifies this
      ensures StateWith(if problem.Some? then [At(e.path, problem.value)] else [])
           == SidecarStep(old(StateWith([])), e, entries, c)
    {
      if e.path in store && c.sha256(store[e.path]) == e.sha256 {
        return None;
      }
      if !EndsWith(e.path, SHA1_SUFFIX) {
        return Some(NotSha1);
      }
      var payload := e.path[..|e.path| - |SHA1_SUFFIX|];
      if payload !in entries || payload !in store || c.sha256(store[payload]) != entries[payload].sha256 {
        return Some(NoVerifiedPayload);
      }
      var choice := SelectSidecar(Renderings(store[payload], payload, c), e.sha256, c);
      if !choice.Chosen? {
        return Some(NoRendering);
      }
      WriteFile(e.path, choice.content);
      return None;
    }

    /** The first phase: every payload that is not already there, or a problem; the sidecars are put aside. */
    method FetchPayloads(files: seq<Entry>, net: Network, c: Crypto)
      returns (problems: seq<Problem>, sidecars: seq<Entry>)
      modifies this
      ensures StateWith(problems) == Payloads(files, |files|, old(StateWith([])), net, c)
      ensures sidecars == SidecarsOf(files, |files|)
    {
      problems, sidecars := [], [];
      for n := 0 to |files|
        invariant StateWith(problems) == Payloads(files, n, old(StateWith([])), net, c)
        invariant sidecars == SidecarsOf(files, n)
      {
        var e := files[n];
        if !IsSafe(e.path) {
          problems := problems + [At(e.path, UnsafePath)];
        } else if e.kind == CHECKSUM {
          sidecars := sidecars + [e];
        } else {
          ghost var before := StateWith([]);
          var problem := FetchPayload(e, net, c);
          PayloadStepAddsProblems(before, problems, e, net, c);
          if problem.Some? {
            problems := problems + [At(e.path, problem.value)];
          }
        }
      }
    }

    /** The second phase: every sidecar that is not already there is derived from its payload, or a problem. */
    method DeriveSidecars(sidecars: seq<Entry>, entries: map<string, Entry>, problems: seq<Problem>, c: Crypto)
      returns (all: seq<Problem>)
      modifies this
      ensures StateWith(all) == Derived(sidecars, |sidecars|, old(StateWith(problems)), entries, c)
    {
      all := problems;
      for n := 0 to |sidecars|
        invariant StateWith(all) == Derived(sidecars, n, old(StateWith(problems)), entries, c)
      {
        ghost var before := StateWith([]);
        var problem := DeriveSidecar(sidecars[n], entries, c);
        SidecarStepAddsProblems(before, all, sidecars[n], entries, c);
        if problem.Some? {
          all := all + [At(sidecars[n].path, problem.value)];
        }
      }
    }

    method Fetch(files: seq<Entry>, net: Network, c: Crypto) returns (problems: seq<Problem>)
      modifies this
      ensures StateWith(problems) == Fetched(files, old(StateWith([])), net, c)
    {
      var sidecars;
      problems, sidecars := FetchPayloads(files, net, c);
      DerivedIsSidecars(files, |files|, StateWith(problems), Entries(files), c);
      problems := DeriveSidecars(sidecars, Entries(files), problems, c);
    }

    method CheckStore(m: Manifest, c: Crypto) returns (problems: seq<Problem>)
      ensures problems == StoreProblems(store, m, c)
    {
      problems := [];
      var expected := Entries(m.files);
      var paths := SortedPaths(expected.Keys);
      for n := 0 to |paths|
        invariant problems == EntryProblems(store, expected, paths, n, c)
      {
        var path := paths[n];
        if !IsSafe(path) {
          problems := problems + [At(path, UnsafePath)];
        } else if path !in store {
          problems := problems + [At(path, Missing)];
        } else if c.sha256(store[path]) != expected[path].sha256 {
          problems := problems + [At(path, BytesDiffer)];
        }
      }
      problems := problems + ExtraProblems(SortedPaths(store.Keys - expected.Keys));
    }

    method VerifyStore(m: Manifest, requireAttested: bool, c: Crypto) returns (problems: seq<Problem>)
      ensures problems == Verify(store, m, requireAttested, c)
    {
      problems := [];
      if requireAttested {
        problems := AttestationProblems(m);
      }
      var found := CheckStore(m, c);
      problems := problems + found;
      if problems == [] && ContentDigest(m.files, c) != m.contentDigest {
        problems := [DigestMismatch];
      }
    }
  }

  // ---------------------------------------------------------------- The method's two loops

  /** The sidecar entries among the first `n`. */
  function SidecarsOf(files: seq<Entry>, n: nat): seq<Entry>
    requires n <= |files|
  {
    if n == 0 then [] else SidecarsOf(files, n - 1) + if IsSidecar(files[n - 1]) then [files[n - 1]] else []
  }

  function Derived(sidecars: seq<Entry>, n: nat, s: State, entries: map<string, Entry>, c: Crypto): State
    requires n <= |sidecars|
  {
    if n == 0 then s else SidecarStep(Derived(sidecars, n - 1, s, entries, c), sidecars[n - 1], entries, c)
  }

  lemma {:induction false} DerivedOfPrefix(a: seq<Entry>, b: seq<Entry>, n: nat, s: State, entries: map<string, Entry>,
                                           c: Crypto)
    requires n <= |a|
    ensures Derived(a + b, n, s, entries, c) == Derived(a, n, s, entries, c)
  {
    if n > 0 { DerivedOfPrefix(a, b, n - 1, s, entries, c); }
  }

  lemma {:induction false} DerivedIsSidecars(files: seq<Entry>, n: nat, s: State, entries: map<string, Entry>,
                                             c: Crypto)
    requires n <= |files|
    ensures Derived(SidecarsOf(files, n), |SidecarsOf(files, n)|, s, entries, c) == Sidecars(files, n, s, entries, c)
  {
    if n > 0 {
      DerivedIsSidecars(files, n - 1, s, entries, c);
      if IsSidecar(files[n - 1]) {
        var earlier := SidecarsOf(files, n - 1);
        DerivedOfPrefix(earlier, [files[n - 1]], |earlier|, s, entries, c);
      } else {
        assert SidecarsOf(files, n) == SidecarsOf(files, n - 1);
      }
    }
  }

  lemma PayloadStepAddsProblems(s: State, problems: seq<Problem>, e: Entry, net: Network, c: Crypto)
    requires s.problems == []
    ensures var alone, after := PayloadStep(s, e, net, c), PayloadStep(s.(problems := problems), e, net, c);
      after == alone.(problems := problems + alone.problems)
  {}

  lemma SidecarStepAddsProblems(s: State, problems: seq<Problem>, e: Entry,
                                entries: map<string, Entry>, c: Crypto)
    requires s.problems == []
    ensures var alone, after := SidecarStep(s, e, entries, c), SidecarStep(s.(problems := problems), e, entries, c);
      after == alone.(problems := problems + alone.problems)
  {}
}
