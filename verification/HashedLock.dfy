/** The hashed requirements file: printing pins with their published hashes, and reading the file back. */
module HashedLock {
  import opened Order
  import opened Text

  /** A pin with the hashes the index publishes for it. */
  datatype Pin = Pin(name: string, version: string, hashes: seq<string>)

  datatype Locked = Locked(version: string, hashes: set<string>)

  // ---------------------------------------------------------------- Names

  predicate IsRun(c: char) {
    c == '-' || c == '_' || c == '.'
  }

  /** PEP 503: a run of `-`, `_` and `.` becomes one `-`, and letters become lower case. */
  function Normalize(name: string): string {
    if name == [] then []
    else if IsRun(name[0]) then
      if |name| >= 2 && IsRun(name[1]) then Normalize(name[1..]) else ['-'] + Normalize(name[1..])
    else [LowerChar(name[0])] + Normalize(name[1..])
  }

  /** No run character but single dashes, and no upper case letter. */
  predicate Normal(name: string) {
    forall i: nat :: i < |name| ==> NormalAt(name, i)
  }

  predicate NormalAt(name: string, i: nat)
    requires i < |name|
  {
    && LowerChar(name[i]) == name[i]
    && (IsRun(name[i]) ==> name[i] == '-' && (i + 1 < |name| ==> !IsRun(name[i + 1])))
  }

  lemma {:induction false} NormalizeHead(name: string)
    requires name != []
    ensures Normalize(name) != [] && (IsRun(Normalize(name)[0]) <==> IsRun(name[0]))
  {
    if IsRun(name[0]) && |name| >= 2 && IsRun(name[1]) {
      NormalizeHead(name[1..]);
    }
  }

  lemma NormalCons(c: char, rest: string)
    requires Normal(rest) && LowerChar(c) == c
    requires IsRun(c) ==> c == '-' && (rest != [] ==> !IsRun(rest[0]))
    ensures Normal([c] + rest)
  {
    var r := [c] + rest;
    forall i: nat | i < |r| ensures NormalAt(r, i) {
      if i > 0 { assert r[i] == rest[i - 1] && NormalAt(rest, i - 1); }
      if i + 1 < |r| { assert r[i + 1] == rest[i]; }
    }
  }

  lemma {:induction false} NormalizeIsNormal(name: string)
    ensures Normal(Normalize(name))
  {
    if name != [] {
      var rest := name[1..];
      NormalizeIsNormal(rest);
      if rest != [] { NormalizeHead(rest); }
      if !IsRun(name[0]) {
        NormalCons(LowerChar(name[0]), Normalize(rest));
      } else if !(|name| >= 2 && IsRun(name[1])) {
        NormalCons('-', Normalize(rest));
      }
    }
  }

  lemma {:induction false} NormalizeKeepsNormal(name: string)
    requires Normal(name)
    ensures Normalize(name) == name
  {
    if name != [] {
      var rest := name[1..];
      forall i: nat | i < |rest| ensures NormalAt(rest, i) {
        assert rest[i] == name[i + 1] && NormalAt(name, i + 1);
        if i + 1 < |rest| { assert rest[i + 1] == name[i + 2]; }
      }
      NormalizeKeepsNormal(rest);
      assert NormalAt(name, 0);
      assert name == [name[0]] + rest;
    }
  }

  /** Normalization is idempotent, and its results are the names it leaves alone. */
  lemma NormalizeIsIdempotent(name: string)
    ensures Normalize(Normalize(name)) == Normalize(name)
    ensures Normalize(name) == name <==> Normal(name)
  {
    NormalizeIsNormal(name);
    NormalizeKeepsNormal(Normalize(name));
    if Normal(name) { NormalizeKeepsNormal(name); }
  }

  // ---------------------------------------------------------------- Printing

  const SEPARATOR := " \\\n"
  const HASH_PREFIX := "--hash=sha256:"
  // The comment line, in four pieces.
  const TITLE := "# PRD-034: hashed lock of the "
  const SUBJECT := "release/contained-pip certification "
  const TOOL := "(scripts/certification_python_wheels.py "
  const SCOPE := "hashes). Every file PyPI published per pin."
  const HEADER_LINE := TITLE + SUBJECT + TOOL + SCOPE

  function HashOptions(hashes: seq<string>): seq<string> {
    if hashes == [] then [] else ["    " + HASH_PREFIX + hashes[0]] + HashOptions(hashes[1..])
  }

  function PinText(p: Pin): string {
    p.name + "==" + p.version + SEPARATOR + Join(HashOptions(p.hashes), SEPARATOR)
  }

  function PinTexts(pins: seq<Pin>): seq<string> {
    Each(pins, PinText)
  }

  predicate PinLeq(a: Pin, b: Pin) {
    StringLeq(Normalize(a.name), Normalize(b.name))
  }

  function Printed(pins: seq<Pin>): string {
    HEADER_LINE + "\n" + Join(PinTexts(SortBy(pins, PinLeq)), "\n") + "\n"
  }

  method WriteHashed(pins: seq<Pin>) returns (text: string)
    ensures text == Printed(pins)
  {
    var sorted := SortBy(pins, PinLeq);
    var lines: seq<string> := [];
    for n := 0 to |sorted|
      invariant lines == PinTexts(sorted)[..n]
    {
      lines := lines + [PinText(sorted[n])];
    }
    assert lines == PinTexts(sorted);
    text := HEADER_LINE + "\n" + Join(lines, "\n") + "\n";
  }

  // ---------------------------------------------------------------- Reading

  /** A backslash at the end of a line joins it to the next. */
  function JoinLines(s: string): string {
    if s == [] then []
    else if |s| >= 2 && s[0] == '\\' && s[1] == '\n' then [' '] + JoinLines(s[2..])
    else [s[0]] + JoinLines(s[1..])
  }

  /** The characters at which `splitlines` ends a line. */
  predicate IsLineEnd(c: char) {
    c in {'\n', '\r', '\U{0B}', '\U{0C}', '\U{1C}', '\U{1D}', '\U{1E}', '\U{85}', '\U{2028}', '\U{2029}'}
  }

  function SplitLines(s: string): seq<string> {
    if s == [] then []
    else if IsLineEnd(s[0]) then
      [[]] + SplitLines(if |s| >= 2 && s[0] == '\r' && s[1] == '\n' then s[2..] else s[1..])
    else
      var rest := SplitLines(s[1..]);
      if rest == [] then [[s[0]]] else [[s[0]] + rest[0]] + rest[1..]
  }

  predicate IsNameStart(c: char) {
    'A' <= c <= 'Z' || 'a' <= c <= 'z' || '0' <= c <= '9'
  }

  predicate IsNameChar(c: char) {
    IsNameStart(c) || IsRun(c)
  }

  predicate IsVersionChar(c: char) {
    !IsSpace(c) && c != ';' && c != '\\'
  }

  function Span(s: string, p: char -> bool): (n: nat)
    ensures n <= |s|
  {
    if s != [] && p(s[0]) then 1 + Span(s[1..], p) else 0
  }

  datatype Parsed = NoPin | IsPin(name: string, version: string)

  /** The lock line pattern, matched against a stripped line. */
  function ParseLine(line: string): Parsed {
    var s := Strip(line);
    if s == [] || !IsNameStart(s[0]) then NoPin
    else
      var n := Span(s, IsNameChar);
      if !(n + 2 <= |s| && s[n..n + 2] == "==") then NoPin
      else
        var k := Span(s[n + 2..], IsVersionChar);
        if k == 0 then NoPin else IsPin(s[..n], s[n + 2..n + 2 + k])
  }

  predicate IsHex(c: char) {
    '0' <= c <= '9' || 'a' <= c <= 'f'
  }

  predicate HashAt(s: string) {
    |s| >= 78 && s[..14] == HASH_PREFIX && forall i :: 14 <= i < 78 ==> IsHex(s[i])
  }

  /** All hash options on a line, found from the left without overlap. */
  function HashesIn(s: string): set<string> {
    if s == [] then {}
    else if HashAt(s) then {s[14..78]} + HashesIn(s[78..])
    else HashesIn(s[1..])
  }

  function AddLine(table: map<string, Locked>, line: string): map<string, Locked> {
    match ParseLine(line)
    case NoPin => table
    case IsPin(name, version) => table[Normalize(name) := Locked(version, HashesIn(line))]
  }

  function TableOf(lines: seq<string>): map<string, Locked> {
    if lines == [] then map[] else AddLine(TableOf(lines[..|lines| - 1]), lines[|lines| - 1])
  }

  function Read(text: string): map<string, Locked> {
    TableOf(SplitLines(JoinLines(text)))
  }

  /** The pins of the first `n` lines of a lock. */
  function PinsIn(lines: seq<string>, n: nat): seq<(string, string)>
    requires n <= |lines|
  {
    if n == 0 then []
    else
      match ParseLine(lines[n - 1])
      case NoPin => PinsIn(lines, n - 1)
      case IsPin(name, version) => PinsIn(lines, n - 1) + [(name, version)]
  }

  lemma {:induction false} StripLeftHead(s: string)
    ensures StripLeft(s) != [] ==> !IsSpace(StripLeft(s)[0])
  {
    if s != [] && IsSpace(s[0]) { StripLeftHead(s[1..]); }
  }

  lemma {:induction false} StripRightKeepsHead(s: string)
    requires s != [] && !IsSpace(s[0])
    ensures StripRight(s) != [] && StripRight(s)[0] == s[0]
  {
    if IsSpace(s[|s| - 1]) {
      StripRightKeepsHead(s[..|s| - 1]);
    }
  }

  lemma StartsWithHead(s: string, c: char)
    requires StartsWith(s, [c])
    ensures s[0] == c
  {
    assert s[..1][0] == s[0];
  }

  /** A line that names a pin is never a comment. */
  lemma PinIsNoComment(line: string)
    requires ParseLine(line).IsPin?
    ensures !StartsWith(StripLeft(line), "#")
  {
    var s := StripLeft(line);
    StripLeftHead(line);
    if s != [] {
      StripRightKeepsHead(s);
      assert IsNameStart(s[0]);
      if StartsWith(s, ['#']) { StartsWithHead(s, '#'); }
    }
  }

  method ParseLock(text: string) returns (pins: seq<(string, string)>)
    ensures pins == PinsIn(SplitLines(text), |SplitLines(text)|)
  {
    pins := [];
    var lines := SplitLines(text);
    for n := 0 to |lines|
      invariant pins == PinsIn(lines, n)
    {
      var parsed := ParseLine(lines[n]);
      if parsed.IsPin? {
        PinIsNoComment(lines[n]);
      }
      if parsed.IsPin? && !StartsWith(StripLeft(lines[n]), "#") {
        pins := pins + [(parsed.name, parsed.version)];
      }
    }
  }

  method ParseHashed(text: string) returns (table: map<string, Locked>)
    ensures table == Read(text)
  {
    var lines := SplitLines(JoinLines(text));
    table := map[];
    for n := 0 to |lines|
      invariant table == TableOf(lines[..n])
    {
      assert lines[..n + 1][..n] == lines[..n];
      var parsed := ParseLine(lines[n]);
      if parsed.IsPin? {
        table := table[Normalize(parsed.name) := Locked(parsed.version, HashesIn(lines[n]))];
      }
    }
    assert lines[..|lines|] == lines;
  }
}
