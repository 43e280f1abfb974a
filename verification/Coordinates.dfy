/** Maven coordinates read from a repository path. */
module Coordinates {
  import opened Wrappers
  import opened Text
  import opened MavenRepo

  datatype Coordinates = Coordinates(
    groupId: string, artifactId: string, version: string, kind: string, classifier: string)

  const METADATA_PREFIX := "maven-metadata"

  function Without(path: string, suffix: string): string {
    if EndsWith(path, suffix) then path[..|path| - |suffix|] else path
  }

  const SUFFIXES := [".sha1", ".md5", ".sha256", ".sha512"]

  /** The path with the first `k` suffixes taken off, in their order. */
  function Stripped(path: string, k: nat): string
    requires k <= |SUFFIXES|
  {
    if k == 0 then path else Without(Stripped(path, k - 1), SUFFIXES[k - 1])
  }

  /** The path without its checksum suffixes. */
  function Base(path: string): string {
    Stripped(path, |SUFFIXES|)
  }

  /** The length of `s` up to the first `c`, or its whole length. */
  function IndexOrEnd(s: string, c: char): (n: nat)
    ensures n <= |s|
  {
    if s == [] || s[0] == c then 0 else 1 + IndexOrEnd(s[1..], c)
  }

  /** What `partition(c)` leaves after the first `c`: nothing if there is none. */
  function After(s: string, c: char): string {
    var n := IndexOrEnd(s, c);
    if n == |s| then [] else s[n + 1..]
  }

  function WithoutDots(s: string): string {
    if s != [] && s[0] == '.' then WithoutDots(s[1..]) else s
  }

  function TypeOf(extension: string): string {
    if extension == [] then "?" else extension
  }

  /** What follows `artifact-version` in a file name: a classifier after a dash, and the extension. */
  function FromRest(groupId: string, artifact: string, version: string, rest: string): Coordinates {
    if StartsWith(rest, "-") then
      var tail := rest[1..];
      Coordinates(groupId, artifact, version, TypeOf(After(tail, '.')), tail[..IndexOrEnd(tail, '.')])
    else
      Coordinates(groupId, artifact, version, TypeOf(WithoutDots(rest)), "")
  }

  function FromParts(groupId: string, artifact: string, version: string, filename: string): Option<Coordinates> {
    var prefix := artifact + "-" + version;
    if StartsWith(filename, METADATA_PREFIX) || !StartsWith(filename, prefix) then None
    else Some(FromRest(groupId, artifact, version, filename[|prefix|..]))
  }

  /** The coordinates that a path names; none for metadata and for files that are not an artifact's. */
  function CoordinatesOf(path: string): Option<Coordinates> {
    var parts := Split(Base(path), '/');
    var n := |parts|;
    if n < 4 then None else FromParts(Join(parts[..n - 3], "."), parts[n - 3], parts[n - 2], parts[n - 1])
  }

  method ReadCoordinates(path: string) returns (r: Option<Coordinates>)
    ensures r == CoordinatesOf(path)
  {
    var base := path;
    for k := 0 to |SUFFIXES|
      invariant base == Stripped(path, k)
    {
      if EndsWith(base, SUFFIXES[k]) {
        base := base[..|base| - |SUFFIXES[k]|];
      }
    }
    var parts := Split(base, '/');
    var n := |parts|;
    if n < 4 || StartsWith(parts[n - 1], METADATA_PREFIX) {
      return None;
    }
    var artifact, version, filename := parts[n - 3], parts[n - 2], parts[n - 1];
    var prefix := artifact + "-" + version;
    if !StartsWith(filename, prefix) {
      return None;
    }
    r := Some(FromRest(Join(parts[..n - 3], "."), artifact, version, filename[|prefix|..]));
  }

  // ---------------------------------------------------------------- The path of an artifact

  function FileName(artifact: string, version: string, classifier: string, extension: string): string {
    artifact + "-" + version + (if classifier == "" then "" else "-" + classifier) + "." + extension
  }

  function PathOf(groups: seq<string>, artifact: string, version: string, classifier: string, extension: string): string
  {
    Join(groups + [artifact, version, FileName(artifact, version, classifier, extension)], "/")
  }

  ghost predicate Segment(s: string) {
    '/' !in s
  }

  /** The parts of a well formed artifact path. */
  ghost predicate WellFormed(groups: seq<string>, artifact: string, version: string, classifier: string,
                             extension: string) {
    && groups != [] && (forall g :: g in groups ==> Segment(g)) && Segment(artifact) && Segment(version)
    && Segment(classifier) && Segment(extension) && extension != [] && extension[0] != '.'
  }

  // ---------------------------------------------------------------- Reading it back

  lemma IndexAfter(a: string, c: char, b: string)
    requires c !in a
    ensures IndexOrEnd(a + [c] + b, c) == |a| && After(a + [c] + b, c) == b
  {
    var s := a + [c] + b;
    IndexIs(a, c, b);
    assert s[|a| + 1..] == b;
  }

  lemma {:induction false} IndexIs(a: string, c: char, b: string)
    requires c !in a
    ensures IndexOrEnd(a + [c] + b, c) == |a|
  {
    if a != [] {
      var s := a + [c] + b;
      assert s[1..] == a[1..] + [c] + b && s[0] == a[0];
      IndexIs(a[1..], c, b);
    }
  }

  lemma PathSplits(groups: seq<string>, artifact: string, version: string, classifier: string,
                   extension: string)
    requires WellFormed(groups, artifact, version, classifier, extension)
    ensures Split(PathOf(groups, artifact, version, classifier, extension), '/')
         == groups + [artifact, version, FileName(artifact, version, classifier, extension)]
  {
    var filename := FileName(artifact, version, classifier, extension);
    SplitJoin(groups + [artifact, version, filename], '/');
  }

  lemma FileNameParts(artifact: string, version: string, classifier: string, extension: string)
    ensures var prefix, filename := artifact + "-" + version, FileName(artifact, version, classifier, extension);
      && StartsWith(filename, prefix)
      && filename[|prefix|..] == (if classifier == "" then "." + extension else "-" + (classifier + "." + extension))
  {}

  lemma EndsWithLast(s: string, suffix: string)
    requires suffix != [] && EndsWith(s, suffix)
    ensures s[|s| - 1] == suffix[|suffix| - 1]
  {
    assert s[|s| - |suffix|..][|suffix| - 1] == s[|s| - 1];
  }

  /** A path with one of the suffixes ends in no other of them. */
  lemma OtherSuffix(path: string, suffix: string, other: string)
    requires suffix in SUFFIXES && other in SUFFIXES && other != suffix
    ensures Without(path + suffix, other) == path + suffix
  {
    var s := path + suffix;
    assert s[|s| - 1] == suffix[|suffix| - 1];
    if EndsWith(s, other) { EndsWithLast(s, other); }
  }

  lemma BaseIs(path: string)
    ensures Base(path) == Without(Without(Without(Without(path, ".sha1"), ".md5"), ".sha256"), ".sha512")
  {
    assert Stripped(path, 1) == Without(path, ".sha1");
    assert Stripped(path, 2) == Without(Stripped(path, 1), ".md5");
    assert Stripped(path, 3) == Without(Stripped(path, 2), ".sha256");
  }

  lemma NoSuffixToRemove(path: string)
    requires !IsChecksum(path)
    ensures Base(path) == path
  {
    BaseIs(path);
  }

  lemma SuffixIsRemoved(path: string, suffix: string)
    requires !IsChecksum(path) && suffix in SUFFIXES
    ensures Without(Without(Without(Without(path + suffix, ".sha1"), ".md5"), ".sha256"), ".sha512") == path
  {
    if suffix != ".sha1" { OtherSuffix(path, suffix, ".sha1"); }
    if suffix != ".md5" { OtherSuffix(path, suffix, ".md5"); }
    if suffix != ".sha256" { OtherSuffix(path, suffix, ".sha256"); }
    if suffix != ".sha512" { OtherSuffix(path, suffix, ".sha512"); }
  }

  lemma ChecksumIsRemoved(path: string, suffix: string)
    requires !IsChecksum(path) && (suffix == "" || suffix in SUFFIXES)
    ensures Base(path + suffix) == path
  {
    if suffix == "" {
      assert path + "" == path;
      NoSuffixToRemove(path);
    } else {
      BaseIs(path + suffix);
      SuffixIsRemoved(path, suffix);
    }
  }

  /** The classifier up to its first dot; what follows that dot is taken for part of the extension. */
  function CutClassifier(classifier: string): string {
    classifier[..IndexOrEnd(classifier, '.')]
  }

  function GrownExtension(classifier: string, extension: string): string {
    if '.' in classifier then After(classifier, '.') + "." + extension else extension
  }

  lemma {:induction false} IndexOfFirst(s: string, c: char)
    ensures c in s <==> IndexOrEnd(s, c) < |s|
    ensures c in s ==> s[IndexOrEnd(s, c)] == c && c !in s[..IndexOrEnd(s, c)]
  {
    if s != [] && s[0] != c {
      IndexOfFirst(s[1..], c);
      var n := IndexOrEnd(s[1..], c);
      assert s == [s[0]] + s[1..];
      assert s[..n + 1] == [s[0]] + s[1..][..n];
    }
  }

  /** Where a classifier ends, by its own first dot or by the one after it. */
  lemma ClassifierEnds(classifier: string, extension: string)
    ensures var tail := classifier + "." + extension;
      && tail[..IndexOrEnd(tail, '.')] == CutClassifier(classifier)
      && After(tail, '.') == GrownExtension(classifier, extension)
  {
    var tail, n := classifier + "." + extension, IndexOrEnd(classifier, '.');
    IndexOfFirst(classifier, '.');
    if '.' in classifier {
      var rest := classifier[n + 1..] + "." + extension;
      assert classifier == classifier[..n] + ['.'] + classifier[n + 1..];
      assert tail == classifier[..n] + ['.'] + rest;
      IndexAfter(classifier[..n], '.', rest);
    } else {
      assert tail == classifier + ['.'] + extension && classifier[..n] == classifier;
      IndexAfter(classifier, '.', extension);
    }
  }

  lemma RestIsRead(groupId: string, artifact: string, version: string, classifier: string, extension: string)
    requires extension != [] && extension[0] != '.'
    ensures FromRest(groupId, artifact, version,
                     if classifier == "" then "." + extension else "-" + (classifier + "." + extension))
         == Coordinates(groupId, artifact, version, GrownExtension(classifier, extension), CutClassifier(classifier))
  {
    if classifier == "" {
      var rest := "." + extension;
      assert rest[..1][0] == '.' && rest[1..] == extension;
      assert WithoutDots(extension) == extension;
    } else {
      var tail := classifier + "." + extension;
      assert ("-" + tail)[..1] == "-" && ("-" + tail)[1..] == tail;
      ClassifierEnds(classifier, extension);
      IndexOfFirst(classifier, '.');
    }
  }

  /** What is read from a well formed artifact path, with or without a checksum suffix. */
  lemma CoordinatesAreRead(groups: seq<string>, artifact: string, version: string,
                           classifier: string, extension: string, suffix: string)
    requires WellFormed(groups, artifact, version, classifier, extension)
    requires !IsChecksum(PathOf(groups, artifact, version, classifier, extension))
    requires suffix == "" || suffix in SUFFIXES
    ensures CoordinatesOf(PathOf(groups, artifact, version, classifier, extension) + suffix)
         == if StartsWith(FileName(artifact, version, classifier, extension), METADATA_PREFIX) then None
            else Some(Coordinates(Join(groups, "."), artifact, version, GrownExtension(classifier, extension),
                                  CutClassifier(classifier)))
  {
    var path := PathOf(groups, artifact, version, classifier, extension);
    var parts := groups + [artifact, version, FileName(artifact, version, classifier, extension)];
    ChecksumIsRemoved(path, suffix);
    PathSplits(groups, artifact, version, classifier, extension);
    FileNameParts(artifact, version, classifier, extension);
    assert parts[..|parts| - 3] == groups;
    RestIsRead(Join(groups, "."), artifact, version, classifier, extension);
  }

  /**
   * A well formed artifact path is read back as its coordinates exactly when its file name does not start like that of
   * a metadata file and its classifier has no dot.
   */
  lemma CoordinatesRoundTripIff(groups: seq<string>, artifact: string, version: string,
                                classifier: string, extension: string, suffix: string)
    requires WellFormed(groups, artifact, version, classifier, extension)
    requires !IsChecksum(PathOf(groups, artifact, version, classifier, extension))
    requires suffix == "" || suffix in SUFFIXES
    ensures CoordinatesOf(PathOf(groups, artifact, version, classifier, extension) + suffix)
            == Some(Coordinates(Join(groups, "."), artifact, version, extension, classifier))
       <==> !StartsWith(FileName(artifact, version, classifier, extension), METADATA_PREFIX) && '.' !in classifier
  {
    CoordinatesAreRead(groups, artifact, version, classifier, extension, suffix);
    IndexOfFirst(classifier, '.');
    assert '.' !in classifier ==> CutClassifier(classifier) == classifier;
  }

  // ---------------------------------------------------------------- Any other path

  ghost predicate Segments(parts: seq<string>) {
    forall p :: p in parts ==> Segment(p)
  }

  /** A path of fewer than four parts has no coordinates. */
  lemma ShortPathsHaveNone(parts: seq<string>)
    requires 0 < |parts| < 4 && Segments(parts) && !IsChecksum(Join(parts, "/"))
    ensures CoordinatesOf(Join(parts, "/")) == None
  {
    NoSuffixToRemove(Join(parts, "/"));
    SplitJoin(parts, '/');
  }

  lemma AnyFile(groups: seq<string>, artifact: string, version: string, filename: string)
    requires groups != [] && Segments(groups + [artifact, version, filename])
    requires !IsChecksum(Join(groups + [artifact, version, filename], "/"))
    ensures CoordinatesOf(Join(groups + [artifact, version, filename], "/"))
         == FromParts(Join(groups, "."), artifact, version, filename)
  {
    var parts := groups + [artifact, version, filename];
    NoSuffixToRemove(Join(parts, "/"));
    SplitJoin(parts, '/');
    assert parts[..|parts| - 3] == groups;
  }

  /** A metadata file, and a file that is not named after its directories, have no coordinates. */
  lemma OtherFilesHaveNone(groups: seq<string>, artifact: string, version: string, filename: string)
    requires groups != [] && Segments(groups + [artifact, version, filename])
    requires !IsChecksum(Join(groups + [artifact, version, filename], "/"))
    ensures CoordinatesOf(Join(groups + [artifact, version, filename], "/")) == None <==>
      || (exists rest :: filename == "maven-metadata" + rest)
      || !exists rest :: filename == artifact + "-" + version + rest
  {
    AnyFile(groups, artifact, version, filename);
    StartsWithIs(filename, "maven-metadata");
    StartsWithIs(filename, artifact + "-" + version);
  }

  lemma StartsWithIs(s: string, prefix: string)
    ensures StartsWith(s, prefix) <==> exists rest :: s == prefix + rest
  {
    if StartsWith(s, prefix) { assert s == prefix + s[|prefix|..]; }
    if rest :| s == prefix + rest { assert s[..|prefix|] == prefix; }
  }

  lemma {:induction false} DotsAreDropped(dots: string, extension: string)
    requires (forall i :: 0 <= i < |dots| ==> dots[i] == '.') && (extension == "" || extension[0] != '.')
    ensures WithoutDots(dots + extension) == extension
  {
    if dots == [] {
      assert dots + extension == extension;
    } else {
      assert (dots + extension)[1..] == dots[1..] + extension;
      DotsAreDropped(dots[1..], extension);
    }
  }

  lemma NamedFile(groups: seq<string>, artifact: string, version: string, rest: string)
    requires groups != [] && Segments(groups + [artifact, version, artifact + "-" + version + rest])
    requires !IsChecksum(Join(groups + [artifact, version, artifact + "-" + version + rest], "/"))
    requires !StartsWith(artifact + "-" + version + rest, "maven-metadata")
    ensures CoordinatesOf(Join(groups + [artifact, version, artifact + "-" + version + rest], "/"))
         == Some(FromRest(Join(groups, "."), artifact, version, rest))
  {
    var filename, prefix := artifact + "-" + version + rest, artifact + "-" + version;
    AnyFile(groups, artifact, version, filename);
    assert filename[..|prefix|] == prefix && filename[|prefix|..] == rest;
  }

  /** What follows the version and some dots is the type; without any it is `?`. */
  lemma TypeIsRead(groups: seq<string>, artifact: string, version: string, dots: string, extension: string)
    requires var filename := artifact + "-" + version + (dots + extension);
      && groups != [] && Segments(groups + [artifact, version, filename]) && !StartsWith(filename, "maven-metadata")
      && !IsChecksum(Join(groups + [artifact, version, filename], "/"))
    requires forall i :: 0 <= i < |dots| ==> dots[i] == '.'
    requires extension == "" || (extension[0] != '.' && (dots == "" ==> extension[0] != '-'))
    ensures CoordinatesOf(Join(groups + [artifact, version, artifact + "-" + version + (dots + extension)], "/"))
         == Some(Coordinates(Join(groups, "."), artifact, version, if extension == "" then "?" else extension, ""))
  {
    var rest := dots + extension;
    NamedFile(groups, artifact, version, rest);
    DotsAreDropped(dots, extension);
    assert rest != "" ==> rest[0] != '-' && rest[..1][0] == rest[0];
    assert !StartsWith(rest, "-");
  }

  /** What follows the version and a dash is the classifier, up to a dot, and then the type, `?` if there is none. */
  lemma ClassifierIsRead(groups: seq<string>, artifact: string, version: string, classifier: string, after: string)
    requires var filename := artifact + "-" + version + ("-" + classifier + after);
      && groups != [] && Segments(groups + [artifact, version, filename]) && !StartsWith(filename, "maven-metadata")
      && !IsChecksum(Join(groups + [artifact, version, filename], "/"))
    requires '.' !in classifier && (after == "" || after[0] == '.')
    ensures var filename := artifact + "-" + version + ("-" + classifier + after);
      CoordinatesOf(Join(groups + [artifact, version, filename], "/"))
         == Some(Coordinates(Join(groups, "."), artifact, version,
                             if |after| <= 1 then "?" else after[1..], classifier))
  {
    NamedFile(groups, artifact, version, "-" + classifier + after);
    DashedRest(Join(groups, "."), artifact, version, classifier, after);
  }

  lemma DashedRest(groupId: string, artifact: string, version: string, classifier: string, after: string)
    requires '.' !in classifier && (after == "" || after[0] == '.')
    ensures FromRest(groupId, artifact, version, "-" + classifier + after)
         == Coordinates(groupId, artifact, version, if |after| <= 1 then "?" else after[1..], classifier)
  {
    var rest := "-" + classifier + after;
    assert rest[..1] == "-" && rest[1..] == classifier + after;
    if after == "" {
      assert classifier + after == classifier;
      IndexOfFirst(classifier, '.');
      assert classifier[..|classifier|] == classifier;
    } else {
      assert classifier + after == classifier + ['.'] + after[1..];
      IndexAfter(classifier, '.', after[1..]);
    }
  }
}
