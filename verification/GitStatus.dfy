/** The `git status --porcelain -z` reader of the review command. */
module GitStatus {
  import opened Wrappers
  import opened Order
  import opened Text

  /** One status entry: two status letters, the current path, and the old path of a rename or copy. */
  datatype Entry = Entry(x: char, y: char, path: string, oldPath: Option<string>)

  // ---------------------------------------------------------------- What git prints, in its own letters

  ghost predicate NoNul(e: Entry) {
    && e.x != '\0' && e.y != '\0' && '\0' !in e.path
    && (e.oldPath.Some? ==> '\0' !in e.oldPath.value)
  }

  /** An old path, never empty, follows exactly when one of the letters says renamed or copied. */
  predicate WellFormed(e: Entry) {
    && (e.oldPath.Some? <==> e.x == 'R' || e.x == 'C' || e.y == 'R' || e.y == 'C')
    && e.oldPath != Some("")
  }

  /** What git prints. */
  ghost predicate Printable(e: Entry) {
    NoNul(e) && WellFormed(e)
  }

  /** The second letter alone says renamed or copied: the reader does not expect the old path. */
  predicate Stray(e: Entry) {
    e.x != 'R' && e.x != 'C' && (e.y == 'R' || e.y == 'C')
  }

  function Fields(e: Entry): seq<string> {
    [[e.x, e.y, ' '] + e.path] + (if e.oldPath.Some? then [e.oldPath.value] else [])
  }

  function AllFields(entries: seq<Entry>): seq<string> {
    if entries == [] then [] else Fields(entries[0]) + AllFields(entries[1..])
  }

  function Terminated(fields: seq<string>): string {
    if fields == [] then [] else fields[0] + ['\0'] + Terminated(fields[1..])
  }

  function Print(entries: seq<Entry>): string {
    Terminated(AllFields(entries))
  }

  // ---------------------------------------------------------------- The reader

  const NUL := '\0'

  /** The reader expects an old path after the entry. */
  predicate Moved(x: char) {
    x == 'R' || x == 'C'
  }

  function PathIn(field: string): string {
    if |field| >= 3 then field[3..] else []
  }

  /** The field after the entry at `i`: the old path of a moved one is skipped. */
  function NextEntry(fields: seq<string>, i: nat): (k: nat)
    requires i < |fields| && fields[i] != []
    ensures i < k <= |fields|
  {
    if Moved(fields[i][0]) && i + 1 < |fields| then i + 2 else i + 1
  }

  function Only(path: string, keep: string -> bool): seq<string> {
    if keep(path) then [path] else []
  }

  /** The paths the index loop collects from field `i` on. */
  function CollectFrom(fields: seq<string>, i: nat, keep: string -> bool): seq<string>
    decreases |fields| - i
  {
    if i >= |fields| then []
    else if fields[i] == [] then CollectFrom(fields, i + 1, keep)
    else Only(PathIn(fields[i]), keep) + CollectFrom(fields, NextEntry(fields, i), keep)
  }

  function Selected(output: string, keep: string -> bool): seq<string> {
    if forall c :: c in output ==> c == NUL then [] else CollectFrom(Split(output, NUL), 0, keep)
  }

  /** The loop of the review command; `keep` says which paths are existing files of a reviewed kind. */
  method SelectFiles(output: string, keep: string -> bool) returns (files: seq<string>)
    ensures files == Selected(output, keep)
  {
    files := [];
    if exists c :: c in output && c != NUL {
      files := ReadFields(Split(output, NUL), keep);
    }
  }

  method ReadFields(fields: seq<string>, keep: string -> bool) returns (files: seq<string>)
    ensures files == CollectFrom(fields, 0, keep)
  {
    files := [];
    var i := 0;
    while i < |fields|
      invariant files + CollectFrom(fields, i, keep) == CollectFrom(fields, 0, keep)
    {
      var entry := fields[i];
      if entry == [] {
        i := i + 1;
      } else {
        Associative(files, Only(PathIn(entry), keep), CollectFrom(fields, NextEntry(fields, i), keep));
        if Moved(entry[0]) && i + 1 < |fields| {
          i := i + 1;
        }
        files := files + Only(PathIn(entry), keep);
        i := i + 1;
      }
    }
  }

  // ---------------------------------------------------------------- Reading any text

  /** Field `j` follows one that is taken for an entry and starts with 'R' or 'C': it is taken for an old path. */
  ghost predicate TakenForOldPath(fields: seq<string>, j: nat)
    requires j <= |fields|
  {
    && j > 0 && fields[j - 1] != "" && (fields[j - 1][0] == 'R' || fields[j - 1][0] == 'C')
    && !TakenForOldPath(fields, j - 1)
  }

  /** The paths in the first `n` fields: of all fields but empty ones and those that are taken for old paths, what
      follows the third character, if it is chosen. */
  ghost function PathsUpTo(fields: seq<string>, n: nat, keep: string -> bool): seq<string>
    requires n <= |fields|
  {
    if n == 0 then []
    else
      var field := fields[n - 1];
      var path := if |field| < 3 then "" else field[3..];
      PathsUpTo(fields, n - 1, keep)
      + if field != "" && !TakenForOldPath(fields, n - 1) && keep(path) then [path] else []
  }

  lemma CollectOne(fields: seq<string>, i: nat, keep: string -> bool)
    requires i < |fields| && fields[i] != [] && !TakenForOldPath(fields, i)
    ensures var next := NextEntry(fields, i);
      && (next < |fields| ==> !TakenForOldPath(fields, next))
      && PathsUpTo(fields, next, keep) == PathsUpTo(fields, i, keep) + Only(PathIn(fields[i]), keep)
  {
    assert TakenForOldPath(fields, i + 1) <==> Moved(fields[i][0]);
    assert PathsUpTo(fields, i + 1, keep) == PathsUpTo(fields, i, keep) + Only(PathIn(fields[i]), keep);
    if Moved(fields[i][0]) && i + 1 < |fields| {
      assert PathsUpTo(fields, i + 2, keep) == PathsUpTo(fields, i + 1, keep) + [];
    }
  }

  lemma {:induction false} CollectsPaths(fields: seq<string>, i: nat, keep: string -> bool)
    requires i <= |fields| && (i < |fields| ==> !TakenForOldPath(fields, i))
    ensures PathsUpTo(fields, i, keep) + CollectFrom(fields, i, keep) == PathsUpTo(fields, |fields|, keep)
    decreases |fields| - i
  {
    if i < |fields| && fields[i] == [] {
      CollectsPaths(fields, i + 1, keep);
    } else if i < |fields| {
      var next := NextEntry(fields, i);
      CollectOne(fields, i, keep);
      CollectsPaths(fields, next, keep);
      Associative(PathsUpTo(fields, i, keep), Only(PathIn(fields[i]), keep), CollectFrom(fields, next, keep));
    }
  }

  lemma {:induction false} BlankFields(output: string)
    requires forall c :: c in output ==> c == '\0'
    ensures forall field :: field in Split(output, '\0') ==> field == ""
  {
    if output != [] {
      assert output[0] in output && forall c :: c in output[1..] ==> c in output;
      BlankFields(output[1..]);
    }
  }

  lemma {:induction false} NoPaths(fields: seq<string>, n: nat, keep: string -> bool)
    requires n <= |fields| && forall field :: field in fields ==> field == ""
    ensures PathsUpTo(fields, n, keep) == []
  {
    if n > 0 {
      assert fields[n - 1] in fields;
      NoPaths(fields, n - 1, keep);
    }
  }

  /** What the reader returns for any text at all, printed by git or not. */
  lemma AnyTextIsRead(output: string, keep: string -> bool)
    ensures var fields := Split(output, '\0');
      Selected(output, keep) == PathsUpTo(fields, |fields|, keep)
  {
    var fields := Split(output, '\0');
    if forall c :: c in output ==> c == '\0' {
      BlankFields(output);
      NoPaths(fields, |fields|, keep);
    } else {
      CollectsPaths(fields, 0, keep);
      assert [] + CollectFrom(fields, 0, keep) == CollectFrom(fields, 0, keep);
    }
  }

  // ---------------------------------------------------------------- Reading back what was printed

  function Kept(entries: seq<Entry>, keep: string -> bool): seq<string> {
    if entries == [] then []
    else (if keep(entries[0].path) then [entries[0].path] else []) + Kept(entries[1..], keep)
  }

  lemma {:induction false} SplitTerminated(fields: seq<string>)
    requires forall f :: f in fields ==> NUL !in f
    ensures Split(Terminated(fields), NUL) == fields + [[]]
  {
    if fields != [] {
      SplitTerminated(fields[1..]);
      SplitAfter(fields[0], NUL, Terminated(fields[1..]));
    }
  }

  lemma {:induction false} FieldsHaveNoNul(entries: seq<Entry>)
    requires forall e :: e in entries ==> NoNul(e)
    ensures forall f :: f in AllFields(entries) ==> NUL !in f
  {
    if entries != [] {
      assert NoNul(entries[0]);
      FieldsHaveNoNul(entries[1..]);
    }
  }

  /** What the reader makes of the old path when it reaches it: an entry, which may swallow the next field. */
  function AsEntry(oldPath: Option<string>, keep: string -> bool): seq<string> {
    if oldPath.Some? then Only(PathIn(oldPath.value), keep) else []
  }

  predicate Swallows(oldPath: Option<string>) {
    oldPath.Some? && oldPath.value != "" && (oldPath.value[0] == 'R' || oldPath.value[0] == 'C')
  }

  /** What the reader makes of one printed entry, before what it makes of the others; `swallowed` says that the first
      field of the entry is skipped. */
  function ReadOne(e: Entry, swallowed: bool, keep: string -> bool, others: seq<string>): seq<string> {
    if swallowed then AsEntry(e.oldPath, keep) + others
    else if Stray(e) then Only(e.path, keep) + (AsEntry(e.oldPath, keep) + others)
    else Only(e.path, keep) + others
  }

  /** Whether the first field after the entry is skipped. */
  predicate Overruns(e: Entry, swallowed: bool) {
    (swallowed || Stray(e)) && Swallows(e.oldPath)
  }

  /** What the reader returns for printed entries. */
  function Read(entries: seq<Entry>, swallowed: bool, keep: string -> bool): seq<string> {
    if entries == [] then []
    else ReadOne(entries[0], swallowed, keep, Read(entries[1..], Overruns(entries[0], swallowed), keep))
  }

  function Skip(swallowed: bool): nat {
    if swallowed then 1 else 0
  }

  /** Reaching the old path of an entry as if it were one. */
  lemma ReadOldPath(fields: seq<string>, i: nat, oldPath: string, keep: string -> bool)
    requires i + 1 < |fields| && fields[i] == oldPath != ""
    ensures CollectFrom(fields, i, keep)
         == Only(PathIn(oldPath), keep) + CollectFrom(fields, i + 1 + Skip(Swallows(Some(oldPath))), keep)
  {}

  /** Reaching an entry at its first field. */
  lemma ReadFirstField(fields: seq<string>, i: nat, e: Entry, keep: string -> bool)
    requires i + 1 < |fields| && fields[i] == [e.x, e.y, ' '] + e.path
    ensures CollectFrom(fields, i, keep)
         == Only(e.path, keep) + CollectFrom(fields, if Moved(e.x) then i + 2 else i + 1, keep)
  {
    assert fields[i][0] == e.x && PathIn(fields[i]) == e.path;
  }

  /** The fields of `e` start at `i`, and are not the last. */
  ghost predicate EntryAt(fields: seq<string>, i: nat, e: Entry) {
    && i + |Fields(e)| < |fields|
    && fields[i] == [e.x, e.y, ' '] + e.path
    && (e.oldPath.Some? ==> fields[i + 1] == e.oldPath.value)
  }

  /** Where the reader is after the entry at `i`. */
  function After(i: nat, e: Entry, swallowed: bool): nat {
    i + |Fields(e)| + Skip(Overruns(e, swallowed))
  }

  /** The second field of an entry, taken for an entry. */
  lemma ReadRest(fields: seq<string>, i: nat, e: Entry, next: nat, keep: string -> bool)
    requires EntryAt(fields, i, e) && e.oldPath.Some? && e.oldPath != Some("")
    requires next == i + 2 + Skip(Swallows(e.oldPath))
    ensures CollectFrom(fields, i + 1, keep) == AsEntry(e.oldPath, keep) + CollectFrom(fields, next, keep)
  {
    ReadOldPath(fields, i + 1, e.oldPath.value, keep);
  }

  /** One entry, from its first field or, swallowed, from the next. */
  lemma ReadEntry(fields: seq<string>, i: nat, e: Entry, swallowed: bool, next: nat, others: seq<string>,
                  keep: string -> bool)
    requires WellFormed(e) && EntryAt(fields, i, e) && next == After(i, e, swallowed)
    requires CollectFrom(fields, next, keep) == others
    ensures CollectFrom(fields, i + Skip(swallowed), keep) == ReadOne(e, swallowed, keep, others)
  {
    if !swallowed {
      ReadFirstField(fields, i, e, keep);
    }
    if e.oldPath.Some? && (swallowed || Stray(e)) {
      ReadRest(fields, i, e, next, keep);
    } else if swallowed {
      assert next == i + 1 && AsEntry(e.oldPath, keep) == [];
    } else {
      assert next == if Moved(e.x) then i + 2 else i + 1;
    }
  }

  lemma ReadEnd(fields: seq<string>, i: nat, swallowed: bool, keep: string -> bool)
    requires i < |fields| && fields[i..] == [[]]
    ensures CollectFrom(fields, i + Skip(swallowed), keep) == []
  {
    assert fields[i] == fields[i..][0] == [] && |fields| == i + 1;
  }

  lemma ReadOn(fields: seq<string>, i: nat, e: Entry, rest: seq<Entry>, swallowed: bool, over: bool, next: nat,
               keep: string -> bool)
    requires WellFormed(e) && EntryAt(fields, i, e) && next == i + |Fields(e)| && over == Overruns(e, swallowed)
    requires CollectFrom(fields, next + Skip(over), keep) == Read(rest, over, keep)
    ensures CollectFrom(fields, i + Skip(swallowed), keep) == Read([e] + rest, swallowed, keep)
  {
    var others := Read(rest, over, keep);
    ReadEntry(fields, i, e, swallowed, next + Skip(over), others, keep);
    ReadCons(e, rest, swallowed, keep);
  }

  lemma {:induction false} ReadEntries(fields: seq<string>, i: nat, entries: seq<Entry>, swallowed: bool,
                                       keep: string -> bool)
    requires i < |fields| && fields[i..] == AllFields(entries) + [[]]
    requires forall e :: e in entries ==> WellFormed(e)
    ensures CollectFrom(fields, i + Skip(swallowed), keep) == Read(entries, swallowed, keep)
    decreases |entries|
  {
    if entries == [] {
      ReadEnd(fields, i, swallowed, keep);
    } else {
      var e, rest := entries[0], entries[1..];
      FieldsOfFirst(fields, i, entries);
      assert WellFormed(e) && forall d :: d in rest ==> d in entries;
      var next, over := i + |Fields(e)|, Overruns(e, swallowed);
      ReadEntries(fields, next, rest, over, keep);
      ReadOn(fields, i, e, rest, swallowed, over, next, keep);
      assert entries == [e] + rest;
    }
  }

  lemma FieldsOfFirst(fields: seq<string>, i: nat, entries: seq<Entry>)
    requires entries != [] && i < |fields| && fields[i..] == AllFields(entries) + [[]]
    ensures EntryAt(fields, i, entries[0])
    ensures fields[i + |Fields(entries[0])|..] == AllFields(entries[1..]) + [[]]
  {
    var own, others := Fields(entries[0]), AllFields(entries[1..]) + [[]];
    assert AllFields(entries) + [[]] == own + others;
    FieldsSplit(fields, i, own, others);
  }

  lemma FieldsSplit(fields: seq<string>, i: nat, own: seq<string>, after: seq<string>)
    requires i < |fields| && fields[i..] == own + after
    ensures i + |own| <= |fields| && fields[i + |own|..] == after
    ensures forall k :: 0 <= k < |own| ==> fields[i + k] == own[k]
  {
    assert forall k :: 0 <= k < |fields| - i ==> fields[i..][k] == fields[i + k];
  }

  lemma PrintIsNotBlank(entries: seq<Entry>)
    requires entries != []
    ensures ' ' in Print(entries)
  {
    assert AllFields(entries)[0] == [entries[0].x, entries[0].y, ' '] + entries[0].path;
    assert Print(entries)[2] == ' ';
  }

  /** What the reader returns for anything that git prints. */
  lemma PrintedIsRead(entries: seq<Entry>, keep: string -> bool)
    requires forall e :: e in entries ==> Printable(e)
    ensures Selected(Print(entries), keep) == Read(entries, false, keep)
  {
    if entries != [] {
      var fields := AllFields(entries) + [[]];
      FieldsHaveNoNul(entries);
      SplitTerminated(AllFields(entries));
      assert fields[0..] == fields;
      assert forall e :: e in entries ==> WellFormed(e);
      ReadEntries(fields, 0, entries, false, keep);
      PrintIsNotBlank(entries);
    }
  }

  // ---------------------------------------------------------------- When reading inverts printing

  /**
   * The reader stays in step with the entries: wherever it takes an old path for an entry, that path, less its first
   * three characters, is the path of the next entry, whose first field it then skips. `swallowed` says that it skips
   * the first field here.
   */
  predicate Aligned(entries: seq<Entry>, swallowed: bool) {
    if entries == [] then !swallowed
    else
      var e, rest := entries[0], entries[1..];
      if !(swallowed || Stray(e)) || e.oldPath == None then Aligned(rest, false)
      else Swallows(e.oldPath) && rest != [] && PathIn(e.oldPath.value) == rest[0].path && Aligned(rest, true)
  }

  /** The path of an entry whose first field is skipped was read before it, from an old path. */
  function Owed(entries: seq<Entry>, swallowed: bool, keep: string -> bool): seq<string> {
    if swallowed && entries != [] then Only(entries[0].path, keep) else []
  }

  lemma {:induction false} AlignedIsKept(entries: seq<Entry>, swallowed: bool, keep: string -> bool)
    requires Aligned(entries, swallowed)
    ensures Owed(entries, swallowed, keep) + Read(entries, swallowed, keep) == Kept(entries, keep)
  {
    if entries != [] {
      var e, rest := entries[0], entries[1..];
      AlignedIsKept(rest, Overruns(e, swallowed), keep);
    }
  }

  lemma AlignedIsRead(entries: seq<Entry>, keep: string -> bool)
    requires Aligned(entries, false)
    ensures Read(entries, false, keep) == Kept(entries, keep)
  {
    AlignedIsKept(entries, false, keep);
    assert [] + Read(entries, false, keep) == Read(entries, false, keep);
  }

  predicate Any(path: string) {
    true
  }

  /** Of every path, the reader returns at least one for each entry, up to the one that it skips. */
  lemma {:induction false} ReadIsLongEnough(entries: seq<Entry>, swallowed: bool)
    ensures |Kept(entries, Any)| == |entries| <= |Read(entries, swallowed, Any)| + Skip(swallowed)
  {
    if entries != [] {
      ReadIsLongEnough(entries[1..], Overruns(entries[0], swallowed));
    }
  }

  lemma {:induction false} KeptIsAligned(entries: seq<Entry>, swallowed: bool)
    requires forall e :: e in entries ==> WellFormed(e)
    requires swallowed ==> entries != []
    requires Owed(entries, swallowed, Any) + Read(entries, swallowed, Any) == Kept(entries, Any)
    ensures Aligned(entries, swallowed)
  {
    if entries != [] {
      var e, rest := entries[0], entries[1..];
      assert entries == [e] + rest && WellFormed(e) && forall d :: d in rest ==> d in entries;
      if (swallowed || Stray(e)) && e.oldPath.Some? {
        OldPathStandsIn(e, rest, swallowed);
        KeptIsAligned(rest, true);
      } else {
        NextFollows(e, rest, swallowed);
        KeptIsAligned(rest, false);
      }
    }
  }

  /** An entry that is read, or skipped, as a whole. */
  lemma NextFollows(e: Entry, rest: seq<Entry>, swallowed: bool)
    requires WellFormed(e) && !((swallowed || Stray(e)) && e.oldPath.Some?)
    requires Owed([e] + rest, swallowed, Any) + Read([e] + rest, swallowed, Any) == Kept([e] + rest, Any)
    ensures Owed(rest, false, Any) + Read(rest, false, Any) == Kept(rest, Any)
  {
    var read, kept := Read(rest, false, Any), Kept(rest, Any);
    assert ([e] + rest)[1..] == rest;
    assert [e.path] + read == [e.path] + kept;
    SameFront([e.path], read, kept);
  }

  /** An old path that is taken for an entry then stands in for the next one, which is skipped. */
  lemma OldPathStandsIn(e: Entry, rest: seq<Entry>, swallowed: bool)
    requires (swallowed || Stray(e)) && e.oldPath.Some?
    requires Owed([e] + rest, swallowed, Any) + Read([e] + rest, swallowed, Any) == Kept([e] + rest, Any)
    ensures Swallows(e.oldPath) && rest != [] && PathIn(e.oldPath.value) == rest[0].path
    ensures Owed(rest, true, Any) + Read(rest, true, Any) == Kept(rest, Any)
  {
    var over, guess := Overruns(e, swallowed), PathIn(e.oldPath.value);
    var read, kept := Read(rest, over, Any), Kept(rest, Any);
    assert ([e] + rest)[1..] == rest;
    assert [e.path] + ([guess] + read) == [e.path] + kept;
    SameFront([e.path], [guess] + read, kept);
    ReadIsLongEnough(rest, over);
    assert kept == [rest[0].path] + Kept(rest[1..], Any);
    assert guess == kept[0] == rest[0].path;
  }

  /** Reading inverts printing, whatever files are chosen, exactly when the reader stays in step. */
  lemma StatusRoundTrip(entries: seq<Entry>)
    requires forall e :: e in entries ==> Printable(e)
    ensures (forall keep: string -> bool :: Selected(Print(entries), keep) == Kept(entries, keep))
       <==> Aligned(entries, false)
  {
    if Aligned(entries, false) {
      forall keep: string -> bool ensures Selected(Print(entries), keep) == Kept(entries, keep) {
        PrintedIsRead(entries, keep);
        AlignedIsRead(entries, keep);
      }
    }
    PrintedIsRead(entries, Any);
    if Selected(Print(entries), Any) == Kept(entries, Any) {
      assert Owed(entries, false, Any) + Read(entries, false, Any) == Kept(entries, Any);
      assert forall e :: e in entries ==> WellFormed(e);
      KeptIsAligned(entries, false);
    }
  }

  /** The reader takes the old path, less its first three characters, for a chosen file. */
  predicate StrayChosen(e: Entry, keep: string -> bool) {
    Stray(e) && e.oldPath.Some? && keep(PathIn(e.oldPath.value))
  }

  function StraysChosen(entries: seq<Entry>, keep: string -> bool): nat {
    if entries == [] then 0
    else (if StrayChosen(entries[0], keep) then 1 else 0) + StraysChosen(entries[1..], keep)
  }

  lemma ReadCons(e: Entry, more: seq<Entry>, swallowed: bool, keep: string -> bool)
    ensures Read([e] + more, swallowed, keep)
         == ReadOne(e, swallowed, keep, Read(more, Overruns(e, swallowed), keep))
    ensures Kept([e] + more, keep) == Only(e.path, keep) + Kept(more, keep)
  {
    assert ([e] + more)[1..] == more;
  }

  lemma StrayIsExtra(e: Entry, keep: string -> bool, others: seq<string>)
    ensures |ReadOne(e, false, keep, others)|
         == |Only(e.path, keep)| + (if StrayChosen(e, keep) then 1 else 0) + |others|
    ensures !StrayChosen(e, keep) ==> ReadOne(e, false, keep, others) == Only(e.path, keep) + others
  {
    if !StrayChosen(e, keep) && Stray(e) {
      assert AsEntry(e.oldPath, keep) == [] && [] + others == others;
    }
  }

  /** The reader returns every current path, and a path more for every stray old path that it chooses. */
  lemma {:induction false} StraysAreExtra(entries: seq<Entry>, keep: string -> bool)
    requires forall e :: e in entries && Stray(e) ==> !Swallows(e.oldPath)
    ensures |Read(entries, false, keep)| == |Kept(entries, keep)| + StraysChosen(entries, keep)
    ensures StraysChosen(entries, keep) == 0 ==> Read(entries, false, keep) == Kept(entries, keep)
  {
    if entries != [] {
      var e, rest := entries[0], entries[1..];
      assert e in entries && forall d :: d in rest ==> d in entries;
      StraysAreExtra(rest, keep);
      assert entries == [e] + rest;
      ReadCons(e, rest, false, keep);
      StrayIsExtra(e, keep, Read(rest, false, keep));
    }
  }

  lemma {:induction false} NothingStrayIff(entries: seq<Entry>, keep: string -> bool)
    ensures StraysChosen(entries, keep) == 0 <==> forall e :: e in entries ==> !StrayChosen(e, keep)
  {
    if entries != [] {
      assert entries == [entries[0]] + entries[1..];
      NothingStrayIff(entries[1..], keep);
    }
  }

  /**
   * Reading inverts printing, for a given choice of files, exactly when no unexpected old path, less its first three
   * characters, is a chosen file. (An unexpected old path that starts with R or C also swallows the next field.)
   */
  lemma StatusRoundTripIff(entries: seq<Entry>, keep: string -> bool)
    requires forall e :: e in entries ==> Printable(e) && (Stray(e) ==> !Swallows(e.oldPath))
    ensures Selected(Print(entries), keep) == Kept(entries, keep)
       <==> forall e :: e in entries ==> !StrayChosen(e, keep)
  {
    PrintedIsRead(entries, keep);
    StraysAreExtra(entries, keep);
    NothingStrayIff(entries, keep);
  }

  lemma {:induction false} AlignedIffNothingStray(entries: seq<Entry>)
    requires forall e :: e in entries ==> Printable(e) && (Stray(e) ==> !Swallows(e.oldPath))
    ensures Aligned(entries, false) <==> forall e :: e in entries ==> !Stray(e)
  {
    if entries != [] {
      assert entries == [entries[0]] + entries[1..];
      assert Printable(entries[0]);
      AlignedIffNothingStray(entries[1..]);
    }
  }

  /** Entries that are not renamed or copied are all read; of one renamed or copied in its first letter, so is the
      current path, and the old one is not. */
  lemma OrdinaryEntriesAreRead(entries: seq<Entry>, keep: string -> bool)
    requires forall e :: e in entries ==> NoNul(e)
    requires forall e :: e in entries ==>
      if e.x == 'R' || e.x == 'C' then e.oldPath.Some? && e.oldPath.value != ""
      else e.y != 'R' && e.y != 'C' && e.oldPath == None
    ensures Selected(Print(entries), keep) == Kept(entries, keep)
  {
    assert forall e :: e in entries ==> Printable(e) && !Stray(e);
    PlainStatusRoundTrip(entries);
  }

  /** Where no unexpected old path swallows a field, the reader is in step exactly when no entry is renamed or copied
      in its second letter only. */
  lemma PlainStatusRoundTrip(entries: seq<Entry>)
    requires forall e :: e in entries ==> Printable(e) && (Stray(e) ==> !Swallows(e.oldPath))
    ensures (forall keep: string -> bool :: Selected(Print(entries), keep) == Kept(entries, keep))
       <==> forall e :: e in entries ==> !Stray(e)
  {
    StatusRoundTrip(entries);
    AlignedIffNothingStray(entries);
  }

  /** Two mistakes may cancel: an old path that spells out the next entry stands in for it. */
  lemma MistakesMayCancel(e: Entry, next: Entry, keep: string -> bool)
    requires Printable(e) && Printable(next) && Stray(e) && e.oldPath == Some("R  " + next.path) && next.oldPath == None
    ensures Selected(Print([e, next]), keep) == Kept([e, next], keep)
  {
    assert ("R  " + next.path)[3..] == next.path;
    assert Aligned([e, next], false) by {
      assert [e, next][1..] == [next] && [next][1..] == [];
      assert Aligned([next], true);
    }
    StatusRoundTrip([e, next]);
  }

  lemma {:induction false} KeptConcat(front: seq<Entry>, entries: seq<Entry>, keep: string -> bool)
    ensures Kept(front + entries, keep) == Kept(front, keep) + Kept(entries, keep)
  {
    if front == [] {
      assert front + entries == entries;
    } else {
      KeptConcat(front[1..], entries, keep);
      assert (front + entries)[1..] == front[1..] + entries;
      Associative(Only(front[0].path, keep), Kept(front[1..], keep), Kept(entries, keep));
    }
  }

  /** Whether the first field after the entries is skipped. */
  predicate EndsSwallowed(entries: seq<Entry>, swallowed: bool) {
    if entries == [] then swallowed else EndsSwallowed(entries[1..], Overruns(entries[0], swallowed))
  }

  lemma ReadOneConcat(e: Entry, swallowed: bool, keep: string -> bool, a: seq<string>, b: seq<string>)
    ensures ReadOne(e, swallowed, keep, a + b) == ReadOne(e, swallowed, keep, a) + b
  {
    var own, guess := Only(e.path, keep), AsEntry(e.oldPath, keep);
    Associative(guess, a, b);
    Associative(own, guess + a, b);
    Associative(own, a, b);
  }

  lemma {:induction false} ReadConcat(front: seq<Entry>, entries: seq<Entry>, swallowed: bool, keep: string -> bool)
    ensures Read(front + entries, swallowed, keep)
         == Read(front, swallowed, keep) + Read(entries, EndsSwallowed(front, swallowed), keep)
  {
    if front == [] {
      assert front + entries == entries;
    } else {
      var e, rest := front[0], front[1..];
      var over := Overruns(e, swallowed);
      var after := Read(entries, EndsSwallowed(rest, over), keep);
      ReadConcat(rest, entries, over, keep);
      assert front == [e] + rest && front + entries == [e] + (rest + entries);
      ReadCons(e, rest, swallowed, keep);
      ReadCons(e, rest + entries, swallowed, keep);
      ReadOneConcat(e, swallowed, keep, Read(rest, over, keep), after);
    }
  }

  lemma {:induction false} AlignedEnds(entries: seq<Entry>, swallowed: bool)
    requires Aligned(entries, swallowed)
    ensures !EndsSwallowed(entries, swallowed)
  {
    if entries != [] { AlignedEnds(entries[1..], Overruns(entries[0], swallowed)); }
  }

  lemma ReadPair(e: Entry, next: Entry, back: seq<Entry>, keep: string -> bool)
    requires Stray(e) && Swallows(e.oldPath)
    ensures Read([e, next] + back, false, keep)
         == Only(e.path, keep) + (Only(PathIn(e.oldPath.value), keep)
            + (AsEntry(next.oldPath, keep) + Read(back, Swallows(next.oldPath), keep)))
  {
    assert ([e, next] + back)[1..] == [next] + back && ([next] + back)[1..] == back;
  }

  lemma KeptPair(e: Entry, next: Entry, back: seq<Entry>, keep: string -> bool)
    ensures Kept([e, next] + back, keep) == Only(e.path, keep) + (Only(next.path, keep) + Kept(back, keep))
  {
    assert ([e, next] + back)[1..] == [next] + back && ([next] + back)[1..] == back;
  }

  /** An unexpected old path that starts with R or C takes the place of the next entry, whose path is never read. */
  lemma SwallowedEntryIsMissed(front: seq<Entry>, e: Entry, next: Entry, back: seq<Entry>, keep: string -> bool)
    requires forall d :: d in front + ([e, next] + back) ==> Printable(d)
    requires !EndsSwallowed(front, false) && Stray(e) && Swallows(e.oldPath)
    ensures Selected(Print(front + ([e, next] + back)), keep)
         == Read(front, false, keep)
            + (Only(e.path, keep) + (Only(PathIn(e.oldPath.value), keep)
               + (AsEntry(next.oldPath, keep) + Read(back, Swallows(next.oldPath), keep))))
  {
    PrintedIsRead(front + ([e, next] + back), keep);
    ReadConcat(front, [e, next] + back, false, keep);
    ReadPair(e, next, back, keep);
  }

  /** Between lists that are read in step, the result is then right exactly when the old path and the swallowed path
      happen to choose the same. */
  lemma LoneSwallowIff(front: seq<Entry>, e: Entry, next: Entry, back: seq<Entry>, keep: string -> bool)
    requires forall d :: d in front + ([e, next] + back) ==> Printable(d)
    requires Aligned(front, false) && Aligned(back, false)
    requires Stray(e) && Swallows(e.oldPath) && next.oldPath == None
    ensures Selected(Print(front + ([e, next] + back)), keep) == Kept(front + ([e, next] + back), keep)
       <==> Only(PathIn(e.oldPath.value), keep) == Only(next.path, keep)
  {
    var found, missed, after := Only(PathIn(e.oldPath.value), keep), Only(next.path, keep), Kept(back, keep);
    AlignedEnds(front, false);
    SwallowedEntryIsMissed(front, e, next, back, keep);
    AlignedIsRead(front, keep);
    AlignedIsRead(back, keep);
    KeptConcat(front, [e, next] + back, keep);
    KeptPair(e, next, back, keep);
    NothingInFront(after);
    SameFront(Kept(front, keep), Only(e.path, keep) + (found + after), Only(e.path, keep) + (missed + after));
    SameFront(Only(e.path, keep), found + after, missed + after);
    SameBack(found, missed, after);
  }

  lemma NothingInFront(s: seq<string>)
    ensures [] + s == s
  {}

  lemma SameFront(a: seq<string>, s: seq<string>, t: seq<string>)
    ensures a + s == a + t <==> s == t
  {
    assert (a + s)[|a|..] == s && (a + t)[|a|..] == t;
  }

  lemma SameBack(s: seq<string>, t: seq<string>, c: seq<string>)
    ensures s + c == t + c <==> s == t
  {
    assert (s + c)[..|s|] == s && (t + c)[..|t|] == t;
    assert s + c == t + c ==> |s| == |t|;
  }

  /** A rename or copy recorded in the second letter only, as ` R`: the reader then takes the old path, less its first
      three characters, for a file of its own. */
  lemma WorktreeRenameIsMisread(x: char, y: char, path: string, oldPath: string, keep: string -> bool)
    requires x != 'R' && x != 'C' && (y == 'R' || y == 'C')
    requires x != '\0' && '\0' !in path && '\0' !in oldPath && oldPath != ""
    ensures Selected(Print([Entry(x, y, path, Some(oldPath))]), keep)
         == Only(path, keep) + Only(PathIn(oldPath), keep)
  {
    var e := Entry(x, y, path, Some(oldPath));
    PrintedIsRead([e], keep);
    assert Read([e][1..], Swallows(Some(oldPath)), keep) == [];
  }
}
