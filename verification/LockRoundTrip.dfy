/** Reading a printed lock gives back the pins, by normalized name. */
module LockRoundTrip {
  import opened Order
  import opened Text
  import opened HashedLock

  // ---------------------------------------------------------------- Legal pins

  ghost predicate All(s: string, p: char -> bool) {
    forall i :: 0 <= i < |s| ==> p(s[i])
  }

  ghost predicate LegalName(name: string) {
    name != [] && IsNameStart(name[0]) && All(name, IsNameChar)
  }

  /** What the lock pattern accepts as a version. */
  ghost predicate LegalVersion(version: string) {
    version != [] && All(version, IsVersionChar)
  }

  ghost predicate LegalHash(h: string) {
    |h| == 64 && All(h, IsHex)
  }

  ghost predicate Legal(p: Pin) {
    LegalName(p.name) && LegalVersion(p.version) && forall i :: 0 <= i < |p.hashes| ==> LegalHash(p.hashes[i])
  }

  ghost predicate LegalPins(pins: seq<Pin>) {
    forall i :: 0 <= i < |pins| ==> Legal(pins[i])
  }

  // ---------------------------------------------------------------- Joining lines

  lemma {:induction false} JoinLinesAfter(a: string, b: string)
    requires All(a, c => c != '\\')
    ensures JoinLines(a + b) == a + JoinLines(b)
  {
    if a == [] {
      assert a + b == b;
    } else {
      assert (a + b)[1..] == a[1..] + b && a[0] != '\\';
      assert forall i :: 0 <= i < |a[1..]| ==> a[1..][i] == a[i + 1];
      JoinLinesAfter(a[1..], b);
      assert a == [a[0]] + a[1..];
    }
  }

  const GAP := "  "

  /** The options of a pin on one line. */
  function Options(hashes: seq<string>): string {
    Join(HashOptions(hashes), GAP)
  }

  function LineOf(p: Pin): string {
    p.name + "==" + p.version + GAP + Options(p.hashes)
  }

  lemma JoinLinesAtSeparator(b: string)
    ensures JoinLines(SEPARATOR + b) == GAP + JoinLines(b)
  {
    var s := SEPARATOR + b;
    assert s[0] == ' ' && s[1..] == ['\\', '\n'] + b;
    assert s[1..][2..] == b;
    assert JoinLines(s[1..]) == [' '] + JoinLines(b);
    assert [' '] + ([' '] + JoinLines(b)) == GAP + JoinLines(b);
  }

  /** A piece before a separator stays as it is. */
  lemma JoinStep(head: string, tail: string, b: string, joined: string)
    requires All(head, c => c != '\\') && JoinLines(tail + b) == joined + JoinLines(b)
    ensures JoinLines(head + SEPARATOR + tail + b) == head + GAP + joined + JoinLines(b)
  {
    Associative(head + SEPARATOR, tail, b);
    Associative(head, SEPARATOR, tail + b);
    JoinLinesAfter(head, SEPARATOR + (tail + b));
    JoinLinesAtSeparator(tail + b);
    Associative(head + GAP, joined, JoinLines(b));
    Associative(head, GAP, joined + JoinLines(b));
  }

  lemma OptionHasNoBackslash(h: string)
    requires LegalHash(h)
    ensures All("    " + HASH_PREFIX + h, c => c != '\\')
  {
    var s := "    " + HASH_PREFIX + h;
    forall i | 0 <= i < |s| ensures s[i] != '\\' {
      if i >= 18 { assert s[i] == h[i - 18]; }
    }
  }

  lemma {:induction false} JoinOptions(hashes: seq<string>, b: string)
    requires forall i :: 0 <= i < |hashes| ==> LegalHash(hashes[i])
    ensures JoinLines(Join(HashOptions(hashes), SEPARATOR) + b) == Options(hashes) + JoinLines(b)
  {
    if hashes == [] {
      assert [] + b == b && [] + JoinLines(b) == JoinLines(b);
    } else {
      var option, rest := "    " + HASH_PREFIX + hashes[0], hashes[1..];
      assert HashOptions(hashes) == [option] + HashOptions(rest);
      OptionHasNoBackslash(hashes[0]);
      if rest == [] {
        JoinLinesAfter(option, b);
      } else {
        assert forall i :: 0 <= i < |rest| ==> rest[i] == hashes[i + 1];
        JoinOptions(rest, b);
        JoinStep(option, Join(HashOptions(rest), SEPARATOR), b, Options(rest));
      }
    }
  }

  lemma PinHeadHasNoBackslash(p: Pin)
    requires Legal(p)
    ensures All(p.name + "==" + p.version, c => c != '\\')
  {
    var head := p.name + "==" + p.version;
    forall i | 0 <= i < |head| ensures head[i] != '\\' {
      if i < |p.name| {
        assert head[i] == p.name[i] && IsNameChar(p.name[i]);
      } else if i >= |p.name| + 2 {
        assert head[i] == p.version[i - |p.name| - 2];
      }
    }
  }

  lemma JoinPin(p: Pin, b: string)
    requires Legal(p)
    ensures JoinLines(PinText(p) + b) == LineOf(p) + JoinLines(b)
  {
    JoinOptions(p.hashes, b);
    PinHeadHasNoBackslash(p);
    JoinStep(p.name + "==" + p.version, Join(HashOptions(p.hashes), SEPARATOR), b, Options(p.hashes));
  }

  // ---------------------------------------------------------------- Splitting lines

  lemma {:induction false} SplitLinesAfter(a: string, b: string)
    requires All(a, c => !IsLineEnd(c))
    ensures SplitLines(a + "\n" + b) == [a] + SplitLines(b)
  {
    var s := a + "\n" + b;
    if a == [] {
      assert s[0] == '\n' && s[1..] == b;
    } else {
      assert s[1..] == a[1..] + "\n" + b && s[0] == a[0] && !IsLineEnd(a[0]);
      assert forall i :: 0 <= i < |a[1..]| ==> a[1..][i] == a[i + 1];
      SplitLinesAfter(a[1..], b);
      assert a == [a[0]] + a[1..];
    }
  }

  /** Texts, each followed by a line feed. */
  function Ended(texts: seq<string>): string {
    if texts == [] then [] else texts[0] + "\n" + Ended(texts[1..])
  }

  lemma {:induction false} JoinEnded(texts: seq<string>)
    requires texts != []
    ensures Join(texts, "\n") + "\n" == Ended(texts)
  {
    if |texts| == 1 {
      assert Ended(texts) == texts[0] + "\n" + [];
    } else {
      JoinEnded(texts[1..]);
      assert texts[0] + "\n" + Join(texts[1..], "\n") + "\n" == texts[0] + "\n" + (Join(texts[1..], "\n") + "\n");
    }
  }

  function LinesOf(pins: seq<Pin>): seq<string> {
    Each(pins, LineOf)
  }

  lemma OptionHasNoLineEnd(h: string)
    requires LegalHash(h)
    ensures All("    " + HASH_PREFIX + h, c => !IsLineEnd(c))
  {
    var s := "    " + HASH_PREFIX + h;
    forall i | 0 <= i < |s| ensures !IsLineEnd(s[i]) {
      if i >= 18 { assert s[i] == h[i - 18] && IsHex(h[i - 18]); }
    }
  }

  lemma AllConcat(a: string, b: string, p: char -> bool)
    requires All(a, p) && All(b, p)
    ensures All(a + b, p)
  {}

  lemma {:induction false} OptionsHaveNoLineEnd(hashes: seq<string>)
    requires forall i :: 0 <= i < |hashes| ==> LegalHash(hashes[i])
    ensures All(Options(hashes), c => !IsLineEnd(c))
  {
    if hashes != [] {
      var option, rest := "    " + HASH_PREFIX + hashes[0], hashes[1..];
      var plain: char -> bool := c => !IsLineEnd(c);
      assert forall i :: 0 <= i < |rest| ==> rest[i] == hashes[i + 1];
      OptionHasNoLineEnd(hashes[0]);
      OptionsHaveNoLineEnd(rest);
      assert All(option, plain) && All(GAP, plain) && All(Options(rest), plain);
      AllConcat(option, GAP, plain);
      AllConcat(option + GAP, Options(rest), plain);
      assert Options(hashes) == if rest == [] then option else option + GAP + Options(rest);
      assert All(Options(hashes), plain);
    }
  }

  lemma LineHasNoLineEnd(p: Pin)
    requires Legal(p)
    ensures All(LineOf(p), c => !IsLineEnd(c))
  {
    OptionsHaveNoLineEnd(p.hashes);
    var s, n, v := LineOf(p), |p.name|, |p.version|;
    forall i | 0 <= i < |s| ensures !IsLineEnd(s[i]) {
      if i < n {
        assert s[i] == p.name[i] && IsNameChar(p.name[i]);
      } else if n + 2 <= i < n + 2 + v {
        assert s[i] == p.version[i - n - 2] && IsVersionChar(s[i]);
      } else if i >= n + v + 4 {
        assert s[i] == Options(p.hashes)[i - n - v - 4];
      }
    }
  }

  /** A text that joins to one line is that line of what is read. */
  lemma LineStep(text: string, line: string, tail: string)
    requires JoinLines(text + ("\n" + tail)) == line + JoinLines("\n" + tail) && All(line, c => !IsLineEnd(c))
    ensures SplitLines(JoinLines(text + "\n" + tail)) == [line] + SplitLines(JoinLines(tail))
  {
    assert text + "\n" + tail == text + ("\n" + tail);
    JoinLinesAfter("\n", tail);
    assert line + ("\n" + JoinLines(tail)) == line + "\n" + JoinLines(tail);
    SplitLinesAfter(line, JoinLines(tail));
  }

  /** The text becomes that one line, whatever follows. */
  ghost predicate ReadsAs(text: string, line: string) {
    forall tail :: SplitLines(JoinLines(text + "\n" + tail)) == [line] + SplitLines(JoinLines(tail))
  }

  lemma PinReadsAsLine(p: Pin)
    requires Legal(p)
    ensures ReadsAs(PinText(p), LineOf(p))
  {
    forall tail
      ensures SplitLines(JoinLines(PinText(p) + "\n" + tail)) == [LineOf(p)] + SplitLines(JoinLines(tail))
    {
      JoinPin(p, "\n" + tail);
      LineHasNoLineEnd(p);
      LineStep(PinText(p), LineOf(p), tail);
    }
  }

  lemma {:induction false} TextsReadAsLines(texts: seq<string>, lines: seq<string>)
    requires |texts| == |lines| && forall i :: 0 <= i < |texts| ==> ReadsAs(texts[i], lines[i])
    ensures SplitLines(JoinLines(Ended(texts))) == lines
  {
    if texts != [] {
      TextsReadAsLines(texts[1..], lines[1..]);
      assert ReadsAs(texts[0], lines[0]);
      assert lines == [lines[0]] + lines[1..];
    }
  }

  /** The printed pins, with continuation lines joined, split into one line per pin. */
  lemma PinsSplitIntoLines(pins: seq<Pin>)
    requires LegalPins(pins)
    ensures SplitLines(JoinLines(Ended(PinTexts(pins)))) == LinesOf(pins)
  {
    forall i | 0 <= i < |pins| ensures ReadsAs(PinTexts(pins)[i], LinesOf(pins)[i]) {
      PinReadsAsLine(pins[i]);
    }
    TextsReadAsLines(PinTexts(pins), LinesOf(pins));
  }

  // ---------------------------------------------------------------- Reading one line

  lemma {:induction false} SpanIs(a: string, b: string, p: char -> bool)
    requires All(a, p) && (b != [] ==> !p(b[0]))
    ensures Span(a + b, p) == |a|
  {
    if a == [] {
      assert a + b == b;
    } else {
      assert (a + b)[1..] == a[1..] + b;
      assert forall i :: 0 <= i < |a[1..]| ==> a[1..][i] == a[i + 1];
      SpanIs(a[1..], b, p);
    }
  }

  lemma StripIs(a: string, spaces: string)
    requires a != [] && !IsSpace(a[0]) && !IsSpace(a[|a| - 1]) && All(spaces, IsSpace)
    ensures Strip(a + spaces) == a
    decreases |spaces|
  {
    var s := a + spaces;
    assert s[0] == a[0];
    assert StripLeft(s) == s;
    StripRightIs(a, spaces);
  }

  lemma {:induction false} StripRightIs(a: string, spaces: string)
    requires a != [] && !IsSpace(a[|a| - 1]) && All(spaces, IsSpace)
    ensures StripRight(a + spaces) == a
    decreases |spaces|
  {
    if spaces == [] {
      assert a + spaces == a;
    } else {
      var n := |spaces| - 1;
      assert (a + spaces)[..|a| + n] == a + spaces[..n] && (a + spaces)[|a| + n] == spaces[n];
      StripRightIs(a, spaces[..n]);
    }
  }

  /** What a legal pin begins with is parsed as that pin, whatever follows the version after a space. */
  lemma ParseHead(name: string, version: string, more: string, line: string)
    requires LegalName(name) && LegalVersion(version)
    requires Strip(line) == name + "==" + version + more && (more != [] ==> more[0] == ' ')
    ensures ParseLine(line) == IsPin(name, version)
  {
    var s, rest := Strip(line), version + more;
    Associative(name + "==", version, more);
    Associative(name, "==", rest);
    PartsOf(name, "==", rest);
    assert s[..|name|] == name && s[|name|..|name| + 2] == "==" && s[|name| + 2..] == rest;
    assert s[0] == name[0];
    SpanIs(name, "==" + rest, IsNameChar);
    assert IsSpace(' ') && !IsVersionChar(' ');
    SpanIs(version, more, IsVersionChar);
    assert s[|name| + 2..|name| + 2 + |version|] == rest[..|version|] == version;
  }

  lemma {:induction false} OptionsEndInHex(hashes: seq<string>)
    requires hashes != [] && forall i :: 0 <= i < |hashes| ==> LegalHash(hashes[i])
    ensures Options(hashes) != [] && !IsSpace(Options(hashes)[|Options(hashes)| - 1])
  {
    var option, rest := "    " + HASH_PREFIX + hashes[0], hashes[1..];
    assert HashOptions(hashes) == [option] + HashOptions(rest);
    if rest == [] {
      assert option[|option| - 1] == hashes[0][63] && IsHex(hashes[0][63]);
    } else {
      assert forall i :: 0 <= i < |rest| ==> rest[i] == hashes[i + 1];
      OptionsEndInHex(rest);
      assert Options(hashes) == option + GAP + Options(rest);
    }
  }

  lemma BareLineParses(p: Pin)
    requires Legal(p) && p.hashes == []
    ensures ParseLine(LineOf(p)) == IsPin(p.name, p.version)
  {
    var head := p.name + "==" + p.version;
    assert head[0] == p.name[0] && IsNameStart(p.name[0]);
    var last := p.version[|p.version| - 1];
    assert IsVersionChar(last) && head[|head| - 1] == last;
    assert LineOf(p) == head + GAP;
    StripIs(head, GAP);
    assert head == head + [];
    ParseHead(p.name, p.version, [], LineOf(p));
  }

  lemma HashedLineParses(p: Pin)
    requires Legal(p) && p.hashes != []
    ensures ParseLine(LineOf(p)) == IsPin(p.name, p.version)
  {
    var more := GAP + Options(p.hashes);
    var line := p.name + "==" + p.version + more;
    assert LineOf(p) == line;
    OptionsEndInHex(p.hashes);
    assert line[0] == p.name[0] && IsNameStart(p.name[0]);
    assert line[|line| - 1] == Options(p.hashes)[|Options(p.hashes)| - 1];
    assert line + [] == line;
    StripIs(line, []);
    ParseHead(p.name, p.version, more, line);
  }

  lemma LineParses(p: Pin)
    requires Legal(p)
    ensures ParseLine(LineOf(p)) == IsPin(p.name, p.version)
  {
    if p.hashes == [] { BareLineParses(p); } else { HashedLineParses(p); }
  }

  lemma {:induction false} SpanHolds(s: string, p: char -> bool)
    ensures All(s[..Span(s, p)], p)
  {
    if s != [] && p(s[0]) {
      SpanHolds(s[1..], p);
      var n := Span(s[1..], p);
      assert forall i :: 1 <= i < n + 1 ==> s[i] == s[1..][..n][i - 1];
    }
  }

  lemma ParsedPinIsLegal(line: string)
    requires ParseLine(line).IsPin?
    ensures LegalName(ParseLine(line).name)
    ensures ParseLine(line).version != [] && All(ParseLine(line).version, IsVersionChar)
  {
    var s := Strip(line);
    var n := Span(s, IsNameChar);
    SpanHolds(s, IsNameChar);
    SpanHolds(s[n + 2..], IsVersionChar);
    var k := Span(s[n + 2..], IsVersionChar);
    assert s[n + 2..n + 2 + k] == s[n + 2..][..k];
  }

  /** Whatever the lock, its pins have legal names, and versions of legal characters. */
  lemma {:induction false} LockedPinsAreLegal(lines: seq<string>, n: nat, i: nat)
    requires n <= |lines| && i < |PinsIn(lines, n)|
    ensures var (name, version) := PinsIn(lines, n)[i];
      LegalName(name) && version != [] && All(version, IsVersionChar)
  {
    if i < |PinsIn(lines, n - 1)| {
      LockedPinsAreLegal(lines, n - 1, i);
    } else {
      ParsedPinIsLegal(lines[n - 1]);
    }
  }

  // ---------------------------------------------------------------- Finding the hashes

  /** No hash option starts inside a piece without a colon that ends in a space. */
  lemma {:induction false} SkipPiece(pre: string, rest: string)
    requires All(pre, c => c != ':') && (pre != [] ==> pre[|pre| - 1] == ' ')
    ensures HashesIn(pre + rest) == HashesIn(rest)
  {
    var s := pre + rest;
    if pre == [] {
      assert s == rest;
    } else {
      assert s[|pre| - 1] == ' ';
      NoHashAt(s, |pre| - 1);
      assert s[1..] == pre[1..] + rest;
      assert forall i :: 0 <= i < |pre[1..]| ==> pre[1..][i] == pre[i + 1];
      SkipPiece(pre[1..], rest);
    }
  }

  lemma HashAtMeans(s: string)
    requires HashAt(s)
    ensures s[13] == ':' && forall i :: 0 <= i < 14 ==> s[i] != ' '
  {
    var t := s[..14];
    assert forall i :: 0 <= i < 14 ==> s[i] == t[i] && HASH_PREFIX[i] != ' ';
    assert t[13] == ':';
  }

  /** A space at `k`, and no colon before it, rule out a hash option. */
  lemma NoHashAt(s: string, k: nat)
    requires k < |s| && s[k] == ' ' && forall i :: 0 <= i < k ==> s[i] != ':'
    ensures !HashAt(s)
  {
    if HashAt(s) { HashAtMeans(s); }
  }

  lemma TakeHash(h: string, rest: string)
    requires LegalHash(h)
    ensures HashesIn(HASH_PREFIX + h + rest) == {h} + HashesIn(rest)
  {
    var s := HASH_PREFIX + h + rest;
    assert s[..14] == HASH_PREFIX && s[14..78] == h && s[78..] == rest;
    forall i | 14 <= i < 78 ensures IsHex(s[i]) {
      assert s[i] == h[i - 14];
    }
  }

  lemma OptionsStep(hashes: seq<string>)
    requires hashes != []
    ensures var after := if |hashes| == 1 then [] else GAP + Options(hashes[1..]);
      Options(hashes) == "    " + (HASH_PREFIX + hashes[0] + after)
  {
    var option, rest := "    " + HASH_PREFIX + hashes[0], hashes[1..];
    assert HashOptions(hashes) == [option] + HashOptions(rest);
    if rest == [] {
      assert option == "    " + (HASH_PREFIX + hashes[0] + []);
    } else {
      assert option + GAP + Options(rest) == "    " + (HASH_PREFIX + hashes[0] + (GAP + Options(rest)));
    }
  }

  lemma {:induction false} HashesInOptions(hashes: seq<string>)
    requires forall i :: 0 <= i < |hashes| ==> LegalHash(hashes[i])
    ensures HashesIn(Options(hashes)) == set h | h in hashes
    ensures HashesIn(GAP + Options(hashes)) == HashesIn(Options(hashes))
  {
    SkipPiece(GAP, Options(hashes));
    if hashes != [] {
      var h, rest := hashes[0], hashes[1..];
      var after := if |hashes| == 1 then [] else GAP + Options(rest);
      OptionsStep(hashes);
      SkipPiece("    ", HASH_PREFIX + h + after);
      TakeHash(h, after);
      assert forall i :: 0 <= i < |rest| ==> rest[i] == hashes[i + 1];
      HashesInOptions(rest);
      assert hashes == [h] + rest;
    }
  }

  lemma HashAtSigns(s: string)
    requires HashAt(s)
    ensures s[0] == '-' && s[6] == '=' && s[7] == 's' && forall i :: 0 <= i < 6 ==> s[i] != '='
    ensures forall i :: 0 <= i < 78 ==> s[i] != ' '
  {
    HashAtMeans(s);
    var t := s[..14];
    assert forall i :: 0 <= i < 14 ==> s[i] == t[i];
    assert t[0] == '-' && t[6] == '=' && t[7] == 's';
    forall i | 14 <= i < 78 ensures s[i] != ' ' { assert IsHex(s[i]); }
  }

  /** No hash option starts in a name or in the sign after it. */
  lemma {:induction false} NoHashInName(name: string, version: string)
    requires All(name, IsNameChar)
    ensures HashesIn(name + "==" + version) == HashesIn(version)
  {
    var s, n := name + "==" + version, |name|;
    assert forall i :: 0 <= i < n ==> s[i] == name[i] && IsNameChar(name[i]);
    assert s[n] == '=' && s[n + 1] == '=';
    if HashAt(s) { HashAtSigns(s); }
    if name == [] {
      assert s[1..] == "=" + version && s[1..][0] == '=' && s[1..][1..] == version;
      if HashAt(s[1..]) { HashAtSigns(s[1..]); }
    } else {
      assert s[1..] == name[1..] + "==" + version;
      assert forall i :: 0 <= i < |name[1..]| ==> name[1..][i] == name[i + 1];
      NoHashInName(name[1..], version);
    }
  }

  lemma HashAtStart(a: string, b: string)
    requires b != [] && b[0] == ' '
    ensures HashAt(a + b) <==> HashAt(a)
    ensures HashAt(a) ==> |a| >= 78 && (a + b)[14..78] == a[14..78] && (a + b)[78..] == a[78..] + b
  {
    var s := a + b;
    assert s[|a|] == ' ';
    if HashAt(s) {
      HashAtSigns(s);
      assert s[..14] == a[..14] && forall i :: 14 <= i < 78 ==> s[i] == a[i];
    }
    if HashAt(a) {
      assert s[..14] == a[..14] && forall i :: 14 <= i < 78 ==> s[i] == a[i];
    }
  }

  /** No hash option reaches over a space. */
  lemma {:induction false} HashesBeforeSpace(a: string, b: string)
    requires b != [] && b[0] == ' '
    ensures HashesIn(a + b) == HashesIn(a) + HashesIn(b)
    decreases |a|
  {
    HashAtStart(a, b);
    if a == [] {
      assert a + b == b;
    } else if HashAt(a) {
      HashesBeforeSpace(a[78..], b);
    } else {
      assert (a + b)[1..] == a[1..] + b;
      HashesBeforeSpace(a[1..], b);
    }
  }

  /** The hashes on the line of a pin: those of its options, and any that its version spells out. */
  lemma LineHashes(p: Pin)
    requires Legal(p)
    ensures HashesIn(LineOf(p)) == HashesIn(p.version) + set h | h in p.hashes
  {
    var head := p.name + "==" + p.version;
    assert LineOf(p) == head + (GAP + Options(p.hashes));
    HashesBeforeSpace(head, GAP + Options(p.hashes));
    NoHashInName(p.name, p.version);
    HashesInOptions(p.hashes);
  }

  // ---------------------------------------------------------------- The round trip

  function LockedOf(p: Pin): Locked {
    Locked(p.version, set h | h in p.hashes)
  }

  /** What reading finds on the line of a pin. */
  function FoundOf(p: Pin): Locked {
    Locked(p.version, HashesIn(p.version) + set h | h in p.hashes)
  }

  ghost predicate DistinctNames(pins: seq<Pin>) {
    forall i, j :: 0 <= i < j < |pins| ==> Normalize(pins[i].name) != Normalize(pins[j].name)
  }

  /** `table` is exactly the map from the normalized names of `pins` to what they lock. */
  ghost predicate IsTableOf(table: map<string, Locked>, pins: seq<Pin>, lock: Pin -> Locked) {
    && (forall p :: p in pins ==> Normalize(p.name) in table && table[Normalize(p.name)] == lock(p))
    && (forall n :: n in table ==> exists p :: p in pins && Normalize(p.name) == n)
  }

  ghost predicate Plain(s: string) {
    forall i :: 0 <= i < |s| ==> ' ' <= s[i] <= '~' && s[i] != '\\'
  }

  lemma TitleIsPlain()
    ensures Plain(TITLE)
  {}

  lemma SubjectIsPlain()
    ensures Plain(SUBJECT)
  {}

  lemma ToolIsPlain()
    ensures Plain(TOOL)
  {}

  lemma ScopeIsPlain()
    ensures Plain(SCOPE)
  {}

  lemma HeaderIsPlain()
    ensures Plain(HEADER_LINE) && HEADER_LINE != [] && HEADER_LINE[0] == '#'
  {
    TitleIsPlain();
    SubjectIsPlain();
    ToolIsPlain();
    ScopeIsPlain();
  }

  lemma PlainLine(line: string, tail: string)
    requires Plain(line)
    ensures SplitLines(JoinLines(line + "\n" + tail)) == [line] + SplitLines(JoinLines(tail))
  {
    JoinLinesAfter(line, "\n" + tail);
    LineStep(line, line, tail);
  }

  lemma CommentIsNoPin(line: string)
    requires line != [] && line[0] == '#'
    ensures ParseLine(line) == NoPin
  {
    assert !IsSpace('#') && !IsNameStart('#');
    StripRightKeepsHead(line);
  }

  lemma LinesUnderHeader(header: string, pins: seq<Pin>)
    requires Plain(header) && LegalPins(pins)
    ensures SplitLines(JoinLines(header + "\n" + Join(PinTexts(pins), "\n") + "\n"))
         == [header] + (if pins == [] then [[]] else LinesOf(pins))
  {
    var texts := PinTexts(pins);
    var body := Join(texts, "\n") + "\n";
    assert header + "\n" + Join(texts, "\n") + "\n" == header + "\n" + body;
    PlainLine(header, body);
    if pins == [] {
      assert body == [] + "\n" + [];
      PlainLine([], []);
    } else {
      JoinEnded(texts);
      PinsSplitIntoLines(pins);
    }
  }

  lemma TableStep(table: map<string, Locked>, pins: seq<Pin>, p: Pin)
    requires IsTableOf(table, pins, FoundOf) && Legal(p)
    requires forall q :: q in pins ==> Normalize(q.name) != Normalize(p.name)
    ensures IsTableOf(AddLine(table, LineOf(p)), pins + [p], FoundOf)
  {
    LineParses(p);
    LineHashes(p);
  }

  lemma LastIsNew(pins: seq<Pin>, before: seq<Pin>, p: Pin)
    requires LegalPins(pins) && DistinctNames(pins) && pins == before + [p]
    ensures Legal(p) && LegalPins(before) && DistinctNames(before)
    ensures forall q :: q in before ==> Normalize(q.name) != Normalize(p.name)
  {
    var n := |before|;
    assert pins[n] == p && pins[..n] == before;
    assert forall i :: 0 <= i < n ==> before[i] == pins[i];
  }

  lemma TableGrows(lines: seq<string>, pins: seq<Pin>, p: Pin)
    requires IsTableOf(TableOf(lines), pins, FoundOf) && Legal(p)
    requires forall q :: q in pins ==> Normalize(q.name) != Normalize(p.name)
    ensures IsTableOf(TableOf(lines + [LineOf(p)]), pins + [p], FoundOf)
  {
    TableStep(TableOf(lines), pins, p);
  }

  lemma LinesAppend(head: seq<string>, pins: seq<Pin>, p: Pin)
    ensures head + LinesOf(pins + [p]) == head + LinesOf(pins) + [LineOf(p)]
  {}

  lemma {:induction false} TableOfPins(head: seq<string>, pins: seq<Pin>)
    requires LegalPins(pins) && DistinctNames(pins) && TableOf(head) == map[]
    ensures IsTableOf(TableOf(head + LinesOf(pins)), pins, FoundOf)
  {
    if pins == [] {
      assert head + LinesOf(pins) == head;
    } else {
      var p, before := pins[|pins| - 1], pins[..|pins| - 1];
      assert pins == before + [p];
      LastIsNew(pins, before, p);
      TableOfPins(head, before);
      TableGrows(head + LinesOf(before), before, p);
      LinesAppend(head, before, p);
    }
  }

  lemma SortKeepsPins(pins: seq<Pin>)
    requires LegalPins(pins) && DistinctNames(pins)
    ensures var sorted := SortBy(pins, PinLeq);
      && (forall p :: p in sorted <==> p in pins)
      && LegalPins(sorted) && DistinctNames(sorted)
  {
    var sorted := SortBy(pins, PinLeq);
    forall p ensures p in sorted <==> p in pins { SortKeepsElements(pins, PinLeq, p); }
    SortPermutes(pins, PinLeq);
    DistinctSurvivesPermutation(pins, sorted);
    forall i | 0 <= i < |sorted| ensures Legal(sorted[i]) {
      assert sorted[i] in pins;
    }
    forall i, j | 0 <= i < j < |sorted| ensures Normalize(sorted[i].name) != Normalize(sorted[j].name) {
      assert sorted[i] in pins && sorted[j] in pins;
    }
  }

  /** Reading a printed lock gives exactly the map from normalized name to what is found on the pin's line. */
  lemma PrintedLockIsRead(pins: seq<Pin>)
    requires LegalPins(pins) && DistinctNames(pins)
    ensures IsTableOf(Read(Printed(pins)), pins, FoundOf)
  {
    var sorted := SortBy(pins, PinLeq);
    SortKeepsPins(pins);
    HeaderIsPlain();
    LinesUnderHeader(HEADER_LINE, sorted);
    CommentIsNoPin(HEADER_LINE);
    var head := [HEADER_LINE];
    assert TableOf([HEADER_LINE]) == map[];
    if sorted == [] {
      assert (head + [[]])[..1] == head;
    } else {
      TableOfPins(head, sorted);
    }
  }

  /**
   * Reading a printed lock gives exactly the map from normalized name to version and hash set, if and only if no
   * version spells out a hash that its pin does not have.
   */
  lemma LockRoundTripsIff(pins: seq<Pin>)
    requires LegalPins(pins) && DistinctNames(pins)
    ensures IsTableOf(Read(Printed(pins)), pins, LockedOf)
       <==> forall p :: p in pins ==> HashesIn(p.version) <= set h | h in p.hashes
  {
    PrintedLockIsRead(pins);
    forall p ensures FoundOf(p) == LockedOf(p) <==> HashesIn(p.version) <= set h | h in p.hashes {
      var own := set h | h in p.hashes;
      assert HashesIn(p.version) + own == own <==> HashesIn(p.version) <= own;
    }
  }

  /** A version without a colon, as every PEP 440 version is, spells out none. */
  lemma {:induction false} PlainVersionHasNoHash(version: string)
    requires ':' !in version
    ensures HashesIn(version) == {}
  {
    if version != [] {
      if HashAt(version) { HashAtMeans(version); }
      PlainVersionHasNoHash(version[1..]);
    }
  }

  /** A version that the pattern accepts may spell one out. */
  lemma VersionMaySpellAHash(h: string)
    requires LegalHash(h)
    ensures LegalVersion("1" + HASH_PREFIX + h) && HashesIn("1" + HASH_PREFIX + h) == {h}
  {
    var version, rest := "1" + HASH_PREFIX + h, HASH_PREFIX + h;
    forall i | 0 <= i < |version| ensures IsVersionChar(version[i]) {
      if i >= 15 { assert version[i] == h[i - 15] && IsHex(h[i - 15]); }
    }
    assert version[1..] == rest;
    if HashAt(version) { HashAtSigns(version); }
    assert rest == HASH_PREFIX + h + [];
    TakeHash(h, []);
  }

  /** Two tables of the same pins are the same map. */
  lemma TableIsUnique(a: map<string, Locked>, b: map<string, Locked>, pins: seq<Pin>)
    requires IsTableOf(a, pins, FoundOf) && IsTableOf(b, pins, FoundOf)
    ensures a == b
  {
    assert a.Keys == b.Keys;
  }

  /** The lock does not depend on the order in which its pins were given. */
  lemma LockIgnoresPinOrder(pins: seq<Pin>, pins': seq<Pin>)
    requires LegalPins(pins) && DistinctNames(pins)
    requires multiset(pins) == multiset(pins')
    ensures Read(Printed(pins)) == Read(Printed(pins'))
  {
    forall p ensures p in pins <==> p in pins' {
      assert (p in pins <==> p in multiset(pins)) && (p in pins' <==> p in multiset(pins'));
    }
    DistinctSurvivesPermutation(pins, pins');
    forall i | 0 <= i < |pins'| ensures Legal(pins'[i]) { assert pins'[i] in pins; }
    forall i, j | 0 <= i < j < |pins'| ensures Normalize(pins'[i].name) != Normalize(pins'[j].name) {
      assert pins'[i] in pins && pins'[j] in pins;
    }
    PrintedLockIsRead(pins);
    PrintedLockIsRead(pins');
    TableIsUnique(Read(Printed(pins)), Read(Printed(pins')), pins);
  }
}
