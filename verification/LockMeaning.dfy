/** The locks in plain terms: which characters, names, lines and texts they are about. */
module LockMeaning {
  import opened Order
  import opened Text
  import opened HashedLock
  import opened LockRoundTrip

  // ---------------------------------------------------------------- Names and pins

  ghost predicate Alphanumeric(c: char) {
    'a' <= c <= 'z' || 'A' <= c <= 'Z' || '0' <= c <= '9'
  }

  ghost predicate NameLetter(c: char) {
    Alphanumeric(c) || c == '-' || c == '_' || c == '.'
  }

  ghost predicate VersionLetter(c: char) {
    !IsSpace(c) && c != ';' && c != '\\'
  }

  ghost predicate HashDigit(c: char) {
    '0' <= c <= '9' || c == 'a' || c == 'b' || c == 'c' || c == 'd' || c == 'e' || c == 'f'
  }

  /** The pins of a legal lock: PEP 508 names, versions without blank, semicolon or backslash, hexadecimal SHA-256. */
  lemma LegalIs(p: Pin)
    ensures Legal(p) <==>
      && p.name != [] && Alphanumeric(p.name[0]) && (forall i :: 0 <= i < |p.name| ==> NameLetter(p.name[i]))
      && p.version != [] && (forall i :: 0 <= i < |p.version| ==> VersionLetter(p.version[i]))
      && forall k :: 0 <= k < |p.hashes| ==>
           |p.hashes[k]| == 64 && forall i :: 0 <= i < 64 ==> HashDigit(p.hashes[k][i])
  {
    assert forall c :: IsHex(c) <==> HashDigit(c);
    assert forall c :: IsNameChar(c) <==> NameLetter(c);
    assert forall c :: IsVersionChar(c) <==> VersionLetter(c);
    forall k | 0 <= k < |p.hashes|
      ensures LegalHash(p.hashes[k]) <==> |p.hashes[k]| == 64 && forall i :: 0 <= i < 64 ==> HashDigit(p.hashes[k][i])
    {
      assert All(p.hashes[k], IsHex) <==> forall i :: 0 <= i < |p.hashes[k]| ==> HashDigit(p.hashes[k][i]);
    }
  }

  /** No dash, underscore or dot. */
  ghost predicate NoRuns(s: string) {
    forall i :: 0 <= i < |s| ==> s[i] != '-' && s[i] != '_' && s[i] != '.'
  }

  ghost predicate OnlyRuns(s: string) {
    forall i :: 0 <= i < |s| ==> s[i] == '-' || s[i] == '_' || s[i] == '.'
  }

  ghost predicate Lowered(s: string, lower: string) {
    && |lower| == |s|
    && forall i :: 0 <= i < |s| ==>
         if 'A' <= s[i] <= 'Z' then lower[i] as int == s[i] as int + 32 else lower[i] == s[i]
  }

  lemma {:induction false} NormalizeRun(run: string, rest: string)
    requires run != [] && OnlyRuns(run) && (rest == [] || NoRuns([rest[0]]))
    ensures Normalize(run + rest) == "-" + Normalize(rest)
  {
    var s := run + rest;
    assert s[1..] == run[1..] + rest;
    if |run| > 1 {
      NormalizeRun(run[1..], rest);
    } else {
      assert s[1..] == rest;
      assert rest != [] ==> NoRuns([rest[0]]) && [rest[0]][0] == rest[0];
    }
  }

  /**
   * Normalizing a name, from its first run of dashes, underscores and dots on: what comes before is put in lower case,
   * the run becomes one dash, and the rest is normalized in the same way. (Section "Normalized Names" of PEP 503.)
   */
  lemma {:induction false} NormalizeIs(plain: string, run: string, rest: string) returns (lower: string)
    requires NoRuns(plain) && OnlyRuns(run) && (rest == [] || NoRuns([rest[0]])) && (run == [] ==> rest == [])
    ensures Lowered(plain, lower)
    ensures Normalize(plain + run + rest) == lower + (if run == [] then "" else "-" + Normalize(rest))
  {
    if plain == [] {
      lower := [];
      assert plain + run + rest == run + rest;
      if run == [] {
        assert run + rest == [];
      } else {
        NormalizeRun(run, rest);
      }
    } else {
      var s := plain + run + rest;
      assert s[0] == plain[0] && s[1..] == plain[1..] + run + rest;
      var tail := NormalizeIs(plain[1..], run, rest);
      lower := [LowerChar(plain[0])] + tail;
    }
  }

  // ---------------------------------------------------------------- The printed text

  lemma {:induction false} OptionsAre(hashes: seq<string>)
    ensures |HashOptions(hashes)| == |hashes|
    ensures forall i :: 0 <= i < |hashes| ==> HashOptions(hashes)[i] == "    --hash=sha256:" + hashes[i]
  {
    if hashes != [] {
      OptionsAre(hashes[1..]);
      assert "    " + HASH_PREFIX == "    --hash=sha256:";
    }
  }

  /** The text of a pin: its name and version, then an option for every hash, each on a continuation line. */
  ghost predicate IsTextOf(text: string, p: Pin) {
    exists options :: Prints(text, p, options)
  }

  ghost predicate Prints(text: string, p: Pin, options: seq<string>) {
    && |options| == |p.hashes|
    && (forall k :: 0 <= k < |options| ==> options[k] == "    --hash=sha256:" + p.hashes[k])
    && text == p.name + "==" + p.version + " \\\n" + Join(options, " \\\n")
  }

  /** What is printed: a comment, then the pins by normalized name. */
  lemma PrintedIs(pins: seq<Pin>) returns (sorted: seq<Pin>, texts: seq<string>)
    ensures multiset(sorted) == multiset(pins) && |texts| == |sorted|
    ensures forall i, j :: 0 <= i < j < |sorted| ==> StringLeq(Normalize(sorted[i].name), Normalize(sorted[j].name))
    ensures forall i :: 0 <= i < |sorted| ==> IsTextOf(texts[i], sorted[i])
    ensures Printed(pins) == HEADER_LINE + "\n" + Join(texts, "\n") + "\n"
    ensures HEADER_LINE != [] && HEADER_LINE[0] == '#'
  {
    HeaderIsPlain();
    sorted := SortBy(pins, PinLeq);
    texts := PinTexts(sorted);
    SortPermutes(pins, PinLeq);
    StringOrder();
    assert Preorder(PinLeq);
    SortIsSorted(pins, PinLeq);
    forall i, j | 0 <= i < j < |sorted| ensures StringLeq(Normalize(sorted[i].name), Normalize(sorted[j].name)) {
      assert PinLeq(sorted[i], sorted[j]);
    }
    forall i | 0 <= i < |sorted| ensures IsTextOf(texts[i], sorted[i]) {
      OptionsAre(sorted[i].hashes);
      assert texts[i] == PinText(sorted[i]);
      assert Prints(texts[i], sorted[i], HashOptions(sorted[i].hashes));
    }
  }

  // ---------------------------------------------------------------- The locks that are read

  /** The line ends of `str.splitlines`: those of a text file, and the separators of ASCII and Unicode. */
  lemma SplitAtLineEnd(line: string, end: string, rest: string)
    requires forall i :: 0 <= i < |line| ==> !IsLineEnd(line[i])
    requires end in {"\n", "\r\n", "\U{0B}", "\U{0C}", "\U{1C}", "\U{1D}", "\U{1E}", "\U{85}", "\U{2028}", "\U{2029}"}
          || (end == "\r" && (rest == [] || rest[0] != '\n'))
    ensures SplitLines(line + end + rest) == [line] + SplitLines(rest)
  {
    SplitAt(line, end, rest);
  }

  lemma {:induction false} SplitAt(line: string, end: string, rest: string)
    requires forall i :: 0 <= i < |line| ==> !IsLineEnd(line[i])
    requires end != [] && IsLineEnd(end[0])
    requires end == "\r\n" || (|end| == 1 && (end == "\r" ==> rest == [] || rest[0] != '\n'))
    ensures SplitLines(line + end + rest) == [line] + SplitLines(rest)
  {
    var s := line + end + rest;
    if line == [] {
      assert s == end + rest && s[|end|..] == rest && s[0] == end[0];
      if end == "\r\n" { assert s[1] == end[1] == '\n'; }
    } else {
      assert s[0] == line[0] && s[1..] == line[1..] + end + rest;
      SplitAt(line[1..], end, rest);
      assert [line[0]] + line[1..] == line;
    }
  }

  /** A hash option with hash `h` begins at `i`. */
  ghost predicate OptionAt(s: string, i: nat, h: string) {
    && i + 78 <= |s| && s[i..i + 14] == "--hash=sha256:" && s[i + 14..i + 78] == h
    && forall k :: i + 14 <= k < i + 78 ==> HashDigit(s[k])
  }

  lemma OptionHere(s: string)
    ensures HashAt(s) <==> |s| >= 78 && OptionAt(s, 0, s[14..78])
  {
    assert forall c :: IsHex(c) <==> HashDigit(c);
  }

  lemma OptionShift(s: string, d: nat, i: nat, h: string)
    requires d <= |s|
    ensures OptionAt(s[d..], i, h) <==> OptionAt(s, d + i, h)
  {
    if i + 78 <= |s| - d {
      assert s[d..][i..i + 14] == s[d + i..d + i + 14] && s[d..][i + 14..i + 78] == s[d + i + 14..d + i + 78];
      assert forall k :: 0 <= k < |s| - d ==> s[d..][k] == s[d + k];
      if OptionAt(s[d..], i, h) {
        forall k | d + i + 14 <= k < d + i + 78 ensures HashDigit(s[k]) { assert s[d..][k - d] == s[k]; }
      }
    }
  }

  /** No option begins inside another. */
  lemma OptionsAreApart(s: string, i: nat, g: string, h: string)
    requires OptionAt(s, 0, g) && OptionAt(s, i, h) && i > 0
    ensures i >= 78
  {
    var here, there := s[0..14], s[i..i + 14];
    assert s[i] == there[0] == '-' && s[i + 1] == there[1] == '-';
    forall k | 1 <= k < 78 ensures s[k] != '-' || (k == 1 && s[k + 1] == 'h') {
      if k < 14 {
        assert s[k] == here[k] && s[2] == here[2];
      } else {
        assert HashDigit(s[k]);
      }
    }
  }

  /** The hashes found on a line are those of all hash options on it. */
  lemma {:induction false} HashesAre(s: string, h: string)
    ensures h in HashesIn(s) <==> exists i: nat :: OptionAt(s, i, h)
  {
    if s != [] {
      HashesAre(s[if HashAt(s) then 78 else 1..], h);
      OptionsFromHere(s, h, if HashAt(s) then 78 else 1);
    }
  }

  /** An option begins here or after the one that is here. */
  lemma OptionsFromHere(s: string, h: string, d: nat)
    requires s != [] && d == if HashAt(s) then 78 else 1
    ensures (exists i: nat :: OptionAt(s, i, h)) <==>
            || (HashAt(s) && h == s[14..78])
            || exists i: nat :: OptionAt(s[d..], i, h)
  {
    OptionHere(s);
    if i: nat :| OptionAt(s[d..], i, h) {
      OptionShift(s, d, i, h);
      assert OptionAt(s, d + i, h);
    }
    if i: nat :| OptionAt(s, i, h) {
      if HashAt(s) && i > 0 { OptionsAreApart(s, i, s[14..78], h); }
      if i >= d {
        OptionShift(s, d, i - d, h);
        assert OptionAt(s[d..], i - d, h);
      } else {
        assert i == 0;
      }
    }
  }

  /** Line `i` is the last one that pins the name. */
  ghost predicate LastPin(lines: seq<string>, i: nat, name: string) {
    && i < |lines| && ParseLine(lines[i]).IsPin? && Normalize(ParseLine(lines[i]).name) == name
    && forall k :: i < k < |lines| && ParseLine(lines[k]).IsPin? ==> Normalize(ParseLine(lines[k]).name) != name
  }

  ghost predicate PinsName(line: string, name: string) {
    ParseLine(line).IsPin? && Normalize(ParseLine(line).name) == name
  }

  lemma LastPinGrows(lines: seq<string>, line: string, i: nat, name: string)
    ensures LastPin(lines + [line], i, name) <==> if PinsName(line, name) then i == |lines| else LastPin(lines, i, name)
  {
    var all := lines + [line];
    assert all[|lines|] == line;
    assert forall k :: 0 <= k < |lines| ==> all[k] == lines[k];
    if PinsName(line, name) && i < |lines| { assert PinsName(all[|lines|], name); }
  }

  lemma AddedLine(table: map<string, Locked>, line: string, name: string)
    ensures var after := AddLine(table, line);
      if PinsName(line, name) then
        name in after && after[name] == Locked(ParseLine(line).version, HashesIn(line))
      else (name in after <==> name in table) && (name in table ==> after[name] == table[name])
  {}

  /** Of a hashed lock the last line for a normalized name counts: its version, and the hashes on that line. */
  lemma {:induction false} TableIs(lines: seq<string>, name: string)
    ensures name in TableOf(lines) <==> exists i: nat :: LastPin(lines, i, name)
    ensures forall i: nat :: LastPin(lines, i, name) ==>
      && name in TableOf(lines)
      && TableOf(lines)[name] == Locked(ParseLine(lines[i]).version, HashesIn(lines[i]))
  {
    if lines != [] {
      var n := |lines| - 1;
      var earlier, line := lines[..n], lines[n];
      assert lines == earlier + [line];
      TableIs(earlier, name);
      AddedLine(TableOf(earlier), line, name);
      forall i: nat
        ensures LastPin(lines, i, name) <==> if PinsName(line, name) then i == n else LastPin(earlier, i, name)
      {
        LastPinGrows(earlier, line, i, name);
      }
      if PinsName(line, name) { assert LastPin(lines, n, name); }
    }
  }

  /** A line of a lock: a pin, or a comment after some blanks. */
  datatype LockLine = PinLine(name: string, version: string) | Comment(blanks: nat, text: string)

  function Blanks(n: nat): (s: string)
    ensures |s| == n && forall i :: 0 <= i < n ==> s[i] == ' '
  {
    seq(n, (i: nat) => ' ')
  }

  function LineText(line: LockLine): string {
    match line
    case PinLine(name, version) => name + "==" + version
    case Comment(blanks, text) => Blanks(blanks) + "#" + text
  }

  ghost predicate LegalLine(line: LockLine) {
    match line
    case PinLine(name, version) => LegalName(name) && LegalVersion(version)
    case Comment(_, text) => forall i :: 0 <= i < |text| ==> !IsLineEnd(text[i])
  }

  function LockText(lines: seq<LockLine>): string {
    if lines == [] then "" else LineText(lines[0]) + "\n" + LockText(lines[1..])
  }

  /** The pins of the lines, in order. */
  function PinsOf(lines: seq<LockLine>): seq<(string, string)> {
    if lines == [] then []
    else
      PinsOf(lines[..|lines| - 1])
      + match lines[|lines| - 1] case PinLine(name, version) => [(name, version)] case Comment(_, _) => []
  }

  lemma LineHasNoEnd(line: LockLine)
    requires LegalLine(line)
    ensures All(LineText(line), c => !IsLineEnd(c))
  {
    var s := LineText(line);
    forall i | 0 <= i < |s| ensures !IsLineEnd(s[i]) {
      match line
      case PinLine(name, version) =>
        if i < |name| {
          assert s[i] == name[i] && IsNameChar(name[i]);
        } else if i >= |name| + 2 {
          assert s[i] == version[i - |name| - 2] && IsVersionChar(s[i]);
        }
      case Comment(blanks, text) =>
        if i > blanks { assert s[i] == text[i - blanks - 1]; }
    }
  }

  lemma {:induction false} LockSplits(lines: seq<LockLine>)
    requires forall i :: 0 <= i < |lines| ==> LegalLine(lines[i])
    ensures SplitLines(LockText(lines)) == Each(lines, LineText)
  {
    if lines != [] {
      LockSplits(lines[1..]);
      LineHasNoEnd(lines[0]);
      SplitLinesAfter(LineText(lines[0]), LockText(lines[1..]));
      assert Each(lines, LineText) == [LineText(lines[0])] + Each(lines[1..], LineText);
    }
  }

  lemma {:induction false} BlanksAreStripped(n: nat, s: string)
    requires s != [] && !IsSpace(s[0])
    ensures StripLeft(Blanks(n) + s) == s
  {
    if n == 0 {
      assert Blanks(0) + s == s;
    } else {
      assert (Blanks(n) + s)[1..] == Blanks(n - 1) + s && IsSpace(' ');
      BlanksAreStripped(n - 1, s);
    }
  }

  lemma LineIsParsed(line: LockLine)
    requires LegalLine(line)
    ensures ParseLine(LineText(line))
         == match line case PinLine(name, version) => IsPin(name, version) case Comment(_, _) => NoPin
  {
    match line
    case PinLine(name, version) =>
      var s := LineText(line);
      assert s[0] == name[0] && IsNameStart(name[0]) && !IsSpace(name[0]);
      assert s[|s| - 1] == version[|version| - 1] && IsVersionChar(version[|version| - 1]);
      StripIs(s, "");
      assert s + "" == s && s == name + "==" + version + "";
      ParseHead(name, version, "", s);
    case Comment(blanks, text) =>
      var own := "#" + text;
      assert own[0] == '#' && LineText(line) == Blanks(blanks) + own;
      assert !IsSpace('#') && !IsNameStart('#');
      BlanksAreStripped(blanks, own);
      StripRightKeepsHead(own);
  }

  lemma {:induction false} PinsAreCollected(lines: seq<LockLine>, n: nat)
    requires n <= |lines| && forall i :: 0 <= i < |lines| ==> LegalLine(lines[i])
    ensures PinsIn(Each(lines, LineText), n) == PinsOf(lines[..n])
  {
    if n > 0 {
      PinsAreCollected(lines, n - 1);
      LineIsParsed(lines[n - 1]);
      assert lines[..n][..n - 1] == lines[..n - 1];
    }
  }

  /** Of a lock of pins and comments, exactly the pins are read, in order. */
  lemma LockIsParsed(lines: seq<LockLine>)
    requires forall i :: 0 <= i < |lines| ==> LegalLine(lines[i])
    ensures var split := SplitLines(LockText(lines)); PinsIn(split, |split|) == PinsOf(lines)
  {
    LockSplits(lines);
    PinsAreCollected(lines, |lines|);
    assert lines[..|lines|] == lines;
  }
}
