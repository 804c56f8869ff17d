/**
 The installer's payload: the archive listing is checked against the signed manifest before it is
 extracted, and the extracted tree after. Only together do the two checks make the tree exact.
 */
module Payload {
  import opened Json
  import opened JsonCanonical
  import opened DigestText

  datatype Record = Record(path: string, size: int, sha256: string)

  datatype Manifest = Manifest(fileCount: nat, totalBytes: int, treeSha256: string, files: seq<Record>)

  /** An extracted file, by its path relative to the installation directory. */
  datatype File = File(path: string, size: nat, sha256: string)

  /** The rules for path segments and confinement, the form of a digest, and the tree hash. */
  datatype Rules = Rules(safe: string -> bool, isSha256: string -> bool, hash: string -> string)

  const MAX_LONG := 0x7fff_ffff_ffff_ffff

  // ---------------------------------------------------------------- paths

  /** Printable ASCII without backslashes; the rules for segments are a parameter. */
  predicate Portable(path: string, rules: Rules) {
    && path != "" && rules.safe(path)
    && forall i :: 0 <= i < |path| ==> 0x20 <= path[i] as int <= 0x7e && path[i] != '\\'
  }

  /** Comparison that ignores case compares upper-cased text; portable paths are ASCII. */
  function Upper(c: char): char {
    if 'a' <= c <= 'z' then (c as int - 32) as char else c
  }

  function Fold(path: string): (r: string)
    ensures |r| == |path|
  {
    seq(|path|, i requires 0 <= i < |path| => Upper(path[i]))
  }

  function Slashed(path: string): (r: string)
    ensures |r| == |path|
  {
    seq(|path|, i requires 0 <= i < |path| => if path[i] == '\\' then '/' else path[i])
  }

  function TrimSlashes(path: string): string {
    if path != "" && path[|path| - 1] == '/' then TrimSlashes(path[..|path| - 1]) else path
  }

  predicate Holds(text: string, c: char) {
    exists i :: 0 <= i < |text| && text[i] == c
  }

  // ---------------------------------------------------------------- the archive listing

  /** The fields of one listed entry; the empty map stands between entries. */
  type Fields = map<string, string>

  function ValueOf(f: Fields, key: string): string {
    if key in f then f[key] else ""
  }

  /** Digits only, as a signed 64-bit number. */
  function SizeOf(text: string): Option<nat> {
    if text != "" && (forall i :: 0 <= i < |text| ==> IsDigit(text[i])) && 0 <= DecimalValue(text) <= MAX_LONG
    then Some(DecimalValue(text)) else None
  }

  /** What the fields of one listed entry say; `Blank` when there are none. */
  datatype Entry = Blank | Entry(path: string, link: bool, directory: bool, size: Option<nat>)

  function Read(f: Fields): Entry {
    var attributes := Fold(ValueOf(f, "Attributes"));
    if f == map[] then Blank
    else Entry(
      Slashed(ValueOf(f, "Path")),
      ValueOf(f, "Symbolic Link") !in ["", "-"] || ValueOf(f, "Hard Link") !in ["", "-"]
      || ValueOf(f, "Alternate Stream") !in ["", "-"] || Holds(attributes, 'L'),
      ValueOf(f, "Folder") == "+" || Holds(attributes, 'D'),
      SizeOf(ValueOf(f, "Size")))
  }

  function ReadAll(listing: seq<Fields>): (r: seq<Entry>)
    ensures |r| == |listing|
    ensures forall k :: 0 <= k < |listing| ==> r[k] == Read(listing[k])
  {
    seq(|listing|, k requires 0 <= k < |listing| => Read(listing[k]))
  }

  /** Manifest records by folded path that are not listed yet, folded paths seen, and files listed. */
  datatype Progress = Progress(expected: map<string, Record>, seen: set<string>, count: nat)

  predicate Beneath(key: string, directory: string) {
    var prefix := Fold(TrimSlashes(directory) + "/");
    |prefix| <= |key| && key[..|prefix|] == prefix
  }

  predicate Declares(p: Progress, directory: string) {
    exists key :: key in p.expected && Beneath(key, directory)
  }

  predicate NextFile(p: Progress, e: Entry)
    requires e.Entry?
  {
    && Fold(e.path) in p.expected && p.expected[Fold(e.path)].path == e.path
    && e.size.Some? && e.size.value == p.expected[Fold(e.path)].size
  }

  predicate Admits(p: Progress, e: Entry, rules: Rules)
    requires e.Entry?
  {
    && Portable(e.path, rules) && Fold(e.path) !in p.seen && !e.link
    && if e.directory then Declares(p, e.path) else NextFile(p, e)
  }

  /** One entry of the listing; a listed file is expected no longer. */
  function Step(p: Progress, e: Entry, rules: Rules): Option<Progress> {
    if e.Blank? then Some(p)
    else if !Admits(p, e, rules) then None
    else if e.directory then Some(p.(seen := p.seen + {Fold(e.path)}))
    else Some(Progress(p.expected - {Fold(e.path)}, p.seen + {Fold(e.path)}, p.count + 1))
  }

  function Steps(p: Progress, entries: seq<Entry>, rules: Rules): Option<Progress> {
    if entries == [] then Some(p)
    else
      var before := Steps(p, entries[..|entries| - 1], rules);
      if before.None? then None else Step(before.value, entries[|entries| - 1], rules)
  }

  predicate Distinct(files: seq<Record>) {
    forall i, j :: 0 <= i < j < |files| ==> Fold(files[i].path) != Fold(files[j].path)
  }

  predicate AllPortable(files: seq<Record>, rules: Rules) {
    forall i :: 0 <= i < |files| ==> Portable(files[i].path, rules)
  }

  function Expected(files: seq<Record>): map<string, Record> {
    if files == [] then map[]
    else Expected(files[..|files| - 1])[Fold(files[|files| - 1].path) := files[|files| - 1]]
  }

  /** The listing check as a whole. */
  predicate ListingAccepted(m: Manifest, entries: seq<Entry>, rules: Rules) {
    && AllPortable(m.files, rules) && Distinct(m.files)
    && var end := Steps(Progress(Expected(m.files), {}, 0), entries, rules);
    end.Some? && end.value.count == m.fileCount && end.value.expected == map[]
  }

  /** The dictionaries of the listing check, which shrink and grow as entries pass. */
  class ListingCheck {
    var expectedFiles: map<string, Record>
    var archivePaths: set<string>
    var entryCount: nat

    constructor ()
      ensures expectedFiles == map[] && archivePaths == {} && entryCount == 0
    {
      expectedFiles, archivePaths, entryCount := map[], {}, 0;
    }

    function State(): Progress
      reads this
    {
      Progress(expectedFiles, archivePaths, entryCount)
    }

    method Expect(files: seq<Record>, rules: Rules) returns (ok: bool)
      requires expectedFiles == map[]
      modifies this`expectedFiles
      ensures ok <==> AllPortable(files, rules) && Distinct(files)
      ensures ok ==> expectedFiles == Expected(files)
    {
      for n := 0 to |files|
        invariant expectedFiles == Expected(files[..n])
        invariant AllPortable(files[..n], rules) && Distinct(files[..n])
      {
        ExpectedKeys(files[..n]);
        assert files[..n + 1][..n] == files[..n];
        if !Portable(files[n].path, rules) {
          return false;
        }
        if Fold(files[n].path) in expectedFiles {
          ghost var i :| 0 <= i < n && Fold(files[..n][i].path) == Fold(files[n].path);
          assert Fold(files[i].path) == Fold(files[n].path);
          return false;
        }
        expectedFiles := expectedFiles[Fold(files[n].path) := files[n]];
      }
      assert files[..|files|] == files;
      return true;
    }

    method ValidateRecord(fields: Fields, rules: Rules) returns (ok: bool)
      modifies this
      ensures ok <==> Step(old(State()), Read(fields), rules).Some?
      ensures ok ==> Step(old(State()), Read(fields), rules) == Some(State())
    {
      var e := Read(fields);
      if e.Blank? {
        return true;
      }
      if !Portable(e.path, rules) || Fold(e.path) in archivePaths {
        return false;
      }
      archivePaths := archivePaths + {Fold(e.path)};
      if e.link {
        return false;
      }
      if e.directory {
        return exists key :: key in expectedFiles && Beneath(key, e.path);
      }
      if Fold(e.path) !in expectedFiles || expectedFiles[Fold(e.path)].path != e.path {
        return false;
      }
      if e.size.None? || e.size.value != expectedFiles[Fold(e.path)].size {
        return false;
      }
      expectedFiles := expectedFiles - {Fold(e.path)};
      entryCount := entryCount + 1;
      return true;
    }
  }

  method ValidateListing(m: Manifest, listing: seq<Fields>, rules: Rules) returns (ok: bool)
    ensures ok <==> ListingAccepted(m, ReadAll(listing), rules)
  {
    var check := new ListingCheck();
    ok := check.Expect(m.files, rules);
    if !ok {
      return;
    }
    ghost var start, entries := check.State(), ReadAll(listing);
    for n := 0 to |listing|
      invariant Steps(start, entries[..n], rules) == Some(check.State())
    {
      assert entries[..n + 1][..n] == entries[..n] && entries[n] == Read(listing[n]);
      ok := check.ValidateRecord(listing[n], rules);
      if !ok {
        StepsFail(start, entries, n + 1, rules);
        return;
      }
    }
    assert entries[..|listing|] == entries;
    return check.entryCount == m.fileCount && check.expectedFiles == map[];
  }

  lemma {:induction false} StepsFail(p: Progress, entries: seq<Entry>, n: nat, rules: Rules)
    requires n <= |entries| && Steps(p, entries[..n], rules).None?
    ensures Steps(p, entries, rules).None?
    decreases |entries| - n
  {
    if n == |entries| {
      assert entries[..n] == entries;
    } else {
      assert entries[..n + 1][..n] == entries[..n];
      StepsFail(p, entries, n + 1, rules);
    }
  }

  lemma {:induction false} ExpectedKeys(files: seq<Record>)
    ensures forall key :: key in Expected(files) <==> exists i :: 0 <= i < |files| && Fold(files[i].path) == key
    ensures forall key :: key in Expected(files) ==>
            Expected(files)[key] in files && Fold(Expected(files)[key].path) == key
  {
    if files != [] {
      var init, last := files[..|files| - 1], files[|files| - 1];
      ExpectedKeys(init);
      forall key ensures key in Expected(files) <==> exists i :: 0 <= i < |files| && Fold(files[i].path) == key {
        if key in Expected(init) {
          var i :| 0 <= i < |init| && Fold(init[i].path) == key;
          assert Fold(files[i].path) == key;
        }
        if i :| 0 <= i < |files| && Fold(files[i].path) == key {
          assert i < |init| ==> Fold(init[i].path) == key;
        }
      }
    }
  }

  // ---------------------------------------------------------------- what an accepted listing says

  /** An entry that lists a file record: its exact path, its size, and no link. */
  predicate Lists(e: Entry, r: Record) {
    e.Entry? && !e.directory && !e.link && e.path == r.path && e.size.Some? && e.size.value == r.size
  }

  predicate IsListed(entries: seq<Entry>, r: Record) {
    exists k :: 0 <= k < |entries| && Lists(entries[k], r)
  }

  predicate IsDeclared(files: seq<Record>, e: Entry) {
    exists i :: 0 <= i < |files| && Lists(e, files[i])
  }

  ghost predicate Accounted(files: seq<Record>, p: Progress, e: Entry) {
    e.Entry? ==> Fold(e.path) in p.seen && (e.directory || IsDeclared(files, e))
  }

  predicate Clash(e: Entry, d: Entry) {
    e.Entry? && d.Entry? && Fold(e.path) == Fold(d.path)
  }

  ghost predicate Remaining(files: seq<Record>, entries: seq<Entry>, p: Progress) {
    && (forall key :: key in p.expected ==> key in Expected(files) && p.expected[key] == Expected(files)[key])
    && (forall key :: key in Expected(files) && key !in p.expected ==> IsListed(entries, Expected(files)[key]))
    && p.count + |p.expected| == |Expected(files)|
  }

  /** What the progress after some entries says about them. */
  ghost predicate Tracks(files: seq<Record>, entries: seq<Entry>, p: Progress) {
    && Remaining(files, entries, p)
    && (forall k :: 0 <= k < |entries| ==> Accounted(files, p, entries[k]))
    && (forall k, l :: 0 <= k < l < |entries| ==> !Clash(entries[k], entries[l]))
  }

  lemma RemovedKey(m: map<string, Record>, key: string)
    requires key in m
    ensures |m - {key}| == |m| - 1
  {
    assert (m - {key}).Keys == m.Keys - {key};
  }

  lemma ListedStays(entries: seq<Entry>, e: Entry, r: Record)
    ensures IsListed(entries, r) || Lists(e, r) ==> IsListed(entries + [e], r)
  {
    if IsListed(entries, r) {
      var k :| 0 <= k < |entries| && Lists(entries[k], r);
      assert Lists((entries + [e])[k], r);
    } else if Lists(e, r) {
      assert Lists((entries + [e])[|entries|], r);
    }
  }

  lemma StepDeclares(files: seq<Record>, entries: seq<Entry>, p: Progress, e: Entry, rules: Rules)
    requires Remaining(files, entries, p) && e.Entry? && !e.directory && Admits(p, e, rules)
    ensures Fold(e.path) in Expected(files) && Lists(e, Expected(files)[Fold(e.path)]) && IsDeclared(files, e)
  {
    ExpectedKeys(files);
    var i :| 0 <= i < |files| && files[i] == Expected(files)[Fold(e.path)];
    assert Lists(e, files[i]);
  }

  lemma StepRemaining(files: seq<Record>, entries: seq<Entry>, p: Progress, e: Entry, rules: Rules)
    requires Remaining(files, entries, p) && Step(p, e, rules).Some?
    ensures Remaining(files, entries + [e], Step(p, e, rules).value)
  {
    var q := Step(p, e, rules).value;
    if e.Entry? && !e.directory {
      StepDeclares(files, entries, p, e, rules);
      RemovedKey(p.expected, Fold(e.path));
    }
    forall key | key in Expected(files) && key !in q.expected ensures IsListed(entries + [e], Expected(files)[key]) {
      ListedStays(entries, e, Expected(files)[key]);
    }
  }

  lemma StepTracks(files: seq<Record>, entries: seq<Entry>, p: Progress, e: Entry, rules: Rules)
    requires Tracks(files, entries, p) && Step(p, e, rules).Some?
    ensures Tracks(files, entries + [e], Step(p, e, rules).value)
  {
    var q, all := Step(p, e, rules).value, entries + [e];
    StepRemaining(files, entries, p, e, rules);
    if e.Entry? && !e.directory {
      StepDeclares(files, entries, p, e, rules);
    }
    forall k | 0 <= k < |all| ensures Accounted(files, q, all[k]) {
      assert k < |entries| ==> all[k] == entries[k] && Accounted(files, p, entries[k]);
    }
    forall k, l | 0 <= k < l < |all| ensures !Clash(all[k], all[l]) {
      assert all[k] == entries[k] && Accounted(files, p, entries[k]);
      assert l < |entries| ==> all[l] == entries[l] && !Clash(entries[k], entries[l]);
    }
  }

  lemma {:induction false} StepsTrack(files: seq<Record>, entries: seq<Entry>, rules: Rules)
    requires Steps(Progress(Expected(files), {}, 0), entries, rules).Some?
    ensures Tracks(files, entries, Steps(Progress(Expected(files), {}, 0), entries, rules).value)
  {
    if entries != [] {
      var init, e := entries[..|entries| - 1], entries[|entries| - 1];
      StepsTrack(files, init, rules);
      assert entries == init + [e];
      StepTracks(files, init, Steps(Progress(Expected(files), {}, 0), init, rules).value, e, rules);
    }
  }

  lemma FreshKey(files: seq<Record>)
    requires files != [] && Distinct(files)
    ensures Distinct(files[..|files| - 1]) && Fold(files[|files| - 1].path) !in Expected(files[..|files| - 1])
  {
    var init, n := files[..|files| - 1], |files| - 1;
    ExpectedKeys(init);
    forall i | 0 <= i < n ensures Fold(init[i].path) != Fold(files[n].path) {
      assert init[i] == files[i];
    }
  }

  lemma {:induction false} ExpectedCount(files: seq<Record>)
    requires Distinct(files)
    ensures |Expected(files)| == |files|
  {
    if files != [] {
      var init, key := files[..|files| - 1], Fold(files[|files| - 1].path);
      FreshKey(files);
      ExpectedCount(init);
      assert Expected(files).Keys == Expected(init).Keys + {key};
    }
  }

  lemma {:induction false} ExpectedAt(files: seq<Record>, i: nat)
    requires Distinct(files) && i < |files|
    ensures Fold(files[i].path) in Expected(files) && Expected(files)[Fold(files[i].path)] == files[i]
  {
    var init := files[..|files| - 1];
    FreshKey(files);
    if i < |init| {
      ExpectedAt(init, i);
      assert init[i] == files[i];
    }
  }

  /**
   An accepted listing lists every manifest file with its size, and nothing else but directories; no
   two entries, and no two manifest paths, differ in case alone.
   */
  lemma ListingExact(m: Manifest, entries: seq<Entry>, rules: Rules)
    requires ListingAccepted(m, entries, rules)
    ensures m.fileCount == |m.files| && Distinct(m.files)
    ensures forall i :: 0 <= i < |m.files| ==> IsListed(entries, m.files[i])
    ensures forall k :: 0 <= k < |entries| && entries[k].Entry? && !entries[k].directory ==>
            IsDeclared(m.files, entries[k])
    ensures forall k, l :: 0 <= k < l < |entries| ==> !Clash(entries[k], entries[l])
  {
    StepsTrack(m.files, entries, rules);
    ExpectedCount(m.files);
    forall i | 0 <= i < |m.files| ensures IsListed(entries, m.files[i]) {
      ExpectedAt(m.files, i);
    }
    forall k | 0 <= k < |entries| && entries[k].Entry? && !entries[k].directory
      ensures IsDeclared(m.files, entries[k])
    {
      assert Accounted(m.files, Steps(Progress(Expected(m.files), {}, 0), entries, rules).value, entries[k]);
    }
  }

  /** A manifest file beneath the directory that no earlier entry has listed. */
  predicate HasUnlisted(files: seq<Record>, p: Progress, directory: string) {
    exists i :: 0 <= i < |files| && Fold(files[i].path) in p.expected && Beneath(Fold(files[i].path), directory)
  }

  /**
   The dictionary shrinks as files are listed, so the order of a listing matters: a directory passes
   exactly while a file beneath it is still to be listed.
   */
  lemma DirectoryNeedsUnlistedFile(m: Manifest, entries: seq<Entry>, e: Entry, rules: Rules)
    requires Distinct(m.files) && e.Entry? && e.directory && !e.link && Portable(e.path, rules)
    requires Steps(Progress(Expected(m.files), {}, 0), entries, rules).Some?
    requires Fold(e.path) !in Steps(Progress(Expected(m.files), {}, 0), entries, rules).value.seen
    ensures var p := Steps(Progress(Expected(m.files), {}, 0), entries, rules).value;
            Step(p, e, rules).Some? <==> HasUnlisted(m.files, p, e.path)
  {
    var p := Steps(Progress(Expected(m.files), {}, 0), entries, rules).value;
    StepsTrack(m.files, entries, rules);
    ExpectedKeys(m.files);
    if Declares(p, e.path) {
      var key :| key in p.expected && Beneath(key, e.path);
      assert key in Expected(m.files);
      var i :| 0 <= i < |m.files| && Fold(m.files[i].path) == key;
      assert HasUnlisted(m.files, p, e.path);
    }
    if HasUnlisted(m.files, p, e.path) {
      var i :| 0 <= i < |m.files| && Fold(m.files[i].path) in p.expected && Beneath(Fold(m.files[i].path), e.path);
      assert Declares(p, e.path);
    }
  }

  /** One file in one directory: the directory may be listed before the file, not after it. */
  lemma DirectoryAfterItsFile(m: Manifest, rules: Rules)
    requires m == Manifest(1, 1, m.treeSha256, [Record("d/a", 1, "s")]) && rules.safe("d") && rules.safe("d/a")
    ensures var file, directory := Entry("d/a", false, false, Some(1)), Entry("d", false, true, None);
            ListingAccepted(m, [directory, file], rules) && !ListingAccepted(m, [file, directory], rules)
  {
    var file, directory := Entry("d/a", false, false, Some(1)), Entry("d", false, true, None);
    var record, key := m.files[0], Fold("d/a");
    var start := Progress(Expected(m.files), {}, 0);
    assert m.files[..0] == [] && Expected(m.files) == map[key := record];
    assert TrimSlashes("d") == "d" && "d" + "/" == "d/" && key[..2] == Fold("d/");
    assert Beneath(key, "d") && |Fold("d")| == 1;
    assert Portable("d", rules) && Portable("d/a", rules);
    assert key in start.expected && Declares(start, "d");
    var seen := start.(seen := {Fold("d")});
    assert start.seen + {Fold("d")} == seen.seen && start.expected - {key} == map[];
    assert Step(start, directory, rules) == Some(seen);
    assert Step(seen, file, rules) == Some(Progress(map[], seen.seen + {key}, 1));
    var done := Progress(map[], start.seen + {key}, 1);
    assert Step(start, file, rules) == Some(done) && Step(done, directory, rules) == None;
    StepsOfTwo(start, directory, file, rules);
    StepsOfTwo(start, file, directory, rules);
  }

  lemma StepsOfTwo(p: Progress, a: Entry, b: Entry, rules: Rules)
    ensures Steps(p, [a, b], rules) == var after := Step(p, a, rules);
                                       if after.None? then None else Step(after.value, b, rules)
  {
    assert [a, b][..1] == [a] && [a][..0] == [];
    assert Steps(p, [a], rules) == Step(p, a, rules);
  }

  // ---------------------------------------------------------------- the extracted tree

  function Total(files: seq<Record>): int {
    if files == [] then 0 else Total(files[..|files| - 1]) + files[|files| - 1].size
  }

  function SizeText(size: int): string {
    Decimal(if size < 0 then 0 else size)
  }

  function RecordText(r: Record): string {
    r.path + "\0" + SizeText(r.size) + "\0" + r.sha256 + "\0"
  }

  /** The text under the tree digest: path, size and digest of every file, each ended by a NUL. */
  function TreeText(files: seq<Record>): string {
    if files == [] then "" else TreeText(files[..|files| - 1]) + RecordText(files[|files| - 1])
  }

  predicate SameFile(r: Record, f: File) {
    Fold(f.path) == Fold(r.path) && f.size == r.size && f.sha256 == r.sha256
  }

  predicate IsExtracted(tree: seq<File>, r: Record) {
    exists j :: 0 <= j < |tree| && SameFile(r, tree[j])
  }

  predicate FilePortable(f: File, rules: Rules) {
    Portable(f.path, rules)
  }

  predicate TreePortable(tree: seq<File>, rules: Rules) {
    forall j :: 0 <= j < |tree| ==> FilePortable(tree[j], rules)
  }

  predicate DistinctTree(tree: seq<File>) {
    forall i, j :: 0 <= i < j < |tree| ==> Fold(tree[i].path) != Fold(tree[j].path)
  }

  predicate RecordFits(files: seq<Record>, i: nat, tree: seq<File>, rules: Rules)
    requires i < |files|
  {
    && files[i].size >= 0 && rules.isSha256(files[i].sha256) && Portable(files[i].path, rules)
    && (i > 0 ==> KeyLess(files[i - 1].path, files[i].path, Utf16Units))
    && IsExtracted(tree, files[i])
  }

  ghost predicate RecordsFit(files: seq<Record>, tree: seq<File>, rules: Rules) {
    forall i :: 0 <= i < |files| ==> RecordFits(files, i, tree, rules)
  }

  /** The check of the extracted tree as a whole. */
  ghost predicate TreeAccepted(m: Manifest, tree: seq<File>, rules: Rules) {
    && TreePortable(tree, rules) && DistinctTree(tree)
    && |tree| == m.fileCount
    && RecordsFit(m.files, tree, rules)
    && Total(m.files) == m.totalBytes && Total(m.files) <= MAX_LONG
    && rules.hash(TreeText(m.files)) == m.treeSha256
  }

  ghost predicate Finds(byPath: map<string, File>, tree: seq<File>) {
    forall j :: 0 <= j < |tree| ==> Fold(tree[j].path) in byPath && byPath[Fold(tree[j].path)] == tree[j]
  }

  ghost predicate Indexes(byPath: map<string, File>, tree: seq<File>) {
    Finds(byPath, tree) && byPath.Keys == TreeFolds(tree) && DistinctTree(tree)
  }

  method IndexTree(tree: seq<File>, rules: Rules) returns (byPath: Option<map<string, File>>)
    ensures byPath.Some? <==> TreePortable(tree, rules) && DistinctTree(tree)
    ensures byPath.Some? ==> Indexes(byPath.value, tree)
  {
    var actual: map<string, File> := map[];
    for n := 0 to |tree|
      invariant Indexes(actual, tree[..n])
      invariant forall j :: 0 <= j < n ==> FilePortable(tree[j], rules)
    {
      if !FilePortable(tree[n], rules) {
        return None;
      }
      if Fold(tree[n].path) in actual {
        Collides(tree, n);
        return None;
      }
      IndexStep(actual, tree, n);
      actual := actual[Fold(tree[n].path) := tree[n]];
    }
    assert tree[..|tree|] == tree;
    return Some(actual);
  }

  lemma Collides(tree: seq<File>, n: nat)
    requires n < |tree| && Fold(tree[n].path) in TreeFolds(tree[..n])
    ensures !DistinctTree(tree)
  {
    var j :| 0 <= j < n && Fold(tree[..n][j].path) == Fold(tree[n].path);
    assert tree[..n][j] == tree[j];
  }

  lemma FindsStep(byPath: map<string, File>, init: seq<File>, f: File)
    requires Finds(byPath, init) && Fold(f.path) !in byPath
    ensures Finds(byPath[Fold(f.path) := f], init + [f])
  {
    var next := init + [f];
    forall j | 0 <= j < |init| ensures Fold(next[j].path) in byPath && byPath[Fold(next[j].path)] == next[j] {
      assert next[j] == init[j];
    }
  }

  lemma TreeFoldsStep(init: seq<File>, f: File)
    ensures TreeFolds(init + [f]) == TreeFolds(init) + {Fold(f.path)}
  {
    var next := init + [f];
    forall key ensures key in TreeFolds(next) <==> key in TreeFolds(init) || key == Fold(f.path) {
      if key in TreeFolds(init) {
        var j :| 0 <= j < |init| && Fold(init[j].path) == key;
        assert next[j] == init[j];
      }
      if key in TreeFolds(next) {
        var j :| 0 <= j < |next| && Fold(next[j].path) == key;
        assert j < |init| ==> next[j] == init[j];
      }
      assert next[|init|] == f;
    }
  }

  lemma DistinctStep(init: seq<File>, f: File)
    requires DistinctTree(init) && Fold(f.path) !in TreeFolds(init)
    ensures DistinctTree(init + [f])
  {
    forall i | 0 <= i < |init| ensures Fold(init[i].path) != Fold(f.path) {
      assert Fold(init[i].path) in TreeFolds(init);
    }
  }

  lemma IndexStep(byPath: map<string, File>, tree: seq<File>, n: nat)
    requires n < |tree| && Indexes(byPath, tree[..n]) && Fold(tree[n].path) !in byPath
    ensures Indexes(byPath[Fold(tree[n].path) := tree[n]], tree[..n + 1])
  {
    assert tree[..n + 1] == tree[..n] + [tree[n]];
    FindsStep(byPath, tree[..n], tree[n]);
    TreeFoldsStep(tree[..n], tree[n]);
    DistinctStep(tree[..n], tree[n]);
    assert byPath[Fold(tree[n].path) := tree[n]].Keys == byPath.Keys + {Fold(tree[n].path)};
  }

  lemma IndexSize(byPath: map<string, File>, tree: seq<File>)
    requires Indexes(byPath, tree)
    ensures |byPath| == |tree|
  {
    TreeFoldsCount(tree);
    assert |byPath| == |byPath.Keys|;
  }

  lemma Lookup(byPath: map<string, File>, tree: seq<File>, r: Record)
    requires Indexes(byPath, tree)
    ensures IsExtracted(tree, r) <==> Fold(r.path) in byPath && SameFile(r, byPath[Fold(r.path)])
  {
    if Fold(r.path) in byPath {
      assert Fold(r.path) in TreeFolds(tree);
      var j :| 0 <= j < |tree| && Fold(tree[j].path) == Fold(r.path);
      assert byPath[Fold(r.path)] == tree[j];
    }
  }

  lemma {:induction false} TotalGrows(files: seq<Record>, n: nat)
    requires n <= |files| && forall i :: n <= i < |files| ==> files[i].size >= 0
    ensures Total(files[..n]) <= Total(files)
    decreases |files| - n
  {
    if n == |files| {
      assert files[..n] == files;
    } else {
      assert files[..n + 1][..n] == files[..n];
      TotalGrows(files, n + 1);
    }
  }

  method CheckRecord(files: seq<Record>, n: nat, byPath: map<string, File>, ghost tree: seq<File>, rules: Rules)
    returns (ok: bool)
    requires n < |files| && Indexes(byPath, tree)
    ensures ok <==> RecordFits(files, n, tree, rules)
  {
    var r := files[n];
    Lookup(byPath, tree, r);
    if r.size < 0 || !rules.isSha256(r.sha256) || (n > 0 && !KeyLess(files[n - 1].path, r.path, Utf16Units)) {
      return false;
    }
    return Portable(r.path, rules) && Fold(r.path) in byPath && SameFile(r, byPath[Fold(r.path)]);
  }

  /** The record loop: each record against its file, the sum of sizes, and the text under the digest. */
  method CheckRecords(files: seq<Record>, byPath: map<string, File>, ghost tree: seq<File>, rules: Rules)
    returns (r: Option<(int, string)>)
    requires Indexes(byPath, tree)
    ensures r.Some? <==> RecordsFit(files, tree, rules) && Total(files) <= MAX_LONG
    ensures r.Some? ==> r.value == (Total(files), TreeText(files))
  {
    var total, text := 0, "";
    for n := 0 to |files|
      invariant forall i :: 0 <= i < n ==> RecordFits(files, i, tree, rules)
      invariant total == Total(files[..n]) <= MAX_LONG && text == TreeText(files[..n])
    {
      assert files[..n + 1][..n] == files[..n];
      var ok := CheckRecord(files, n, byPath, tree, rules);
      if !ok {
        return None;
      }
      total := total + files[n].size;
      if total > MAX_LONG {
        TooLarge(files, n + 1, tree, rules);
        return None;
      }
      text := text + RecordText(files[n]);
    }
    assert files[..|files|] == files;
    return Some((total, text));
  }

  method VerifyExtracted(m: Manifest, tree: seq<File>, rules: Rules) returns (ok: bool)
    ensures ok <==> TreeAccepted(m, tree, rules)
  {
    var actual := IndexTree(tree, rules);
    if actual.None? {
      return false;
    }
    IndexSize(actual.value, tree);
    if |actual.value| != m.fileCount {
      return false;
    }
    var sums := CheckRecords(m.files, actual.value, tree, rules);
    return sums.Some? && sums.value.0 == m.totalBytes && rules.hash(sums.value.1) == m.treeSha256;
  }

  lemma TooLarge(files: seq<Record>, n: nat, tree: seq<File>, rules: Rules)
    requires n <= |files| && Total(files[..n]) > MAX_LONG
    ensures RecordsFit(files, tree, rules) ==> Total(files) > MAX_LONG
  {
    if RecordsFit(files, tree, rules) {
      forall i | n <= i < |files| ensures files[i].size >= 0 {
        assert RecordFits(files, i, tree, rules);
      }
      TotalGrows(files, n);
    }
  }

  // ---------------------------------------------------------------- the two checks together

  function Folds(files: seq<Record>): set<string> {
    set i | 0 <= i < |files| :: Fold(files[i].path)
  }

  function TreeFolds(tree: seq<File>): set<string> {
    set j | 0 <= j < |tree| :: Fold(tree[j].path)
  }

  lemma FoldsSnoc(files: seq<Record>)
    requires files != []
    ensures Folds(files) == Folds(files[..|files| - 1]) + {Fold(files[|files| - 1].path)}
  {
    var init, n := files[..|files| - 1], |files| - 1;
    forall key ensures key in Folds(files) <==> key in Folds(init) || key == Fold(files[n].path) {
      if key in Folds(init) {
        var i :| 0 <= i < n && Fold(init[i].path) == key;
        assert files[i] == init[i];
      }
      if key in Folds(files) {
        var i :| 0 <= i < |files| && Fold(files[i].path) == key;
        assert i < n ==> files[i] == init[i];
      }
    }
  }

  lemma DistinctSnoc(files: seq<Record>)
    requires files != []
    ensures Distinct(files) <==>
            Distinct(files[..|files| - 1]) && Fold(files[|files| - 1].path) !in Folds(files[..|files| - 1])
  {
    var init, n := files[..|files| - 1], |files| - 1;
    forall i | 0 <= i < n ensures init[i] == files[i] && Fold(files[i].path) in Folds(init) {
      assert Fold(init[i].path) in Folds(init);
    }
    if Fold(files[n].path) in Folds(init) {
      var i :| 0 <= i < n && Fold(init[i].path) == Fold(files[n].path);
      assert Fold(files[i].path) == Fold(files[n].path);
    }
  }

  lemma {:induction false} FoldsCount(files: seq<Record>)
    ensures |Folds(files)| <= |files|
    ensures |Folds(files)| == |files| <==> Distinct(files)
  {
    if files == [] {
      assert Folds(files) == {};
    } else {
      FoldsCount(files[..|files| - 1]);
      FoldsSnoc(files);
      DistinctSnoc(files);
    }
  }

  lemma {:induction false} TreeFoldsCount(tree: seq<File>)
    requires DistinctTree(tree)
    ensures |TreeFolds(tree)| == |tree|
  {
    if tree != [] {
      var init, last := tree[..|tree| - 1], tree[|tree| - 1];
      TreeFoldsCount(init);
      assert TreeFolds(tree) == TreeFolds(init) + {Fold(last.path)};
      assert Fold(last.path) !in TreeFolds(init);
    }
  }

  lemma SubsetOfSameSize(a: set<string>, b: set<string>)
    requires a <= b
    ensures |a| <= |b| && (|a| == |b| <==> a == b)
  {
    assert b == a + (b - a);
    assert |b| == |a| + |b - a|;
  }

  /** Every extracted file is one of the manifest's. */
  ghost predicate NothingExtra(files: seq<Record>, tree: seq<File>) {
    forall j :: 0 <= j < |tree| ==> exists i :: 0 <= i < |files| && SameFile(files[i], tree[j])
  }

  /** The second check excludes extra files exactly if no two manifest paths differ in case alone. */
  lemma NothingExtraIff(m: Manifest, tree: seq<File>, rules: Rules)
    requires TreeAccepted(m, tree, rules) && |m.files| == m.fileCount
    ensures NothingExtra(m.files, tree) <==> Distinct(m.files)
  {
    var a, b := Folds(m.files), TreeFolds(tree);
    FoldsCount(m.files);
    TreeFoldsCount(tree);
    forall key | key in a ensures key in b {
      var i :| 0 <= i < |m.files| && Fold(m.files[i].path) == key;
      assert RecordFits(m.files, i, tree, rules);
    }
    SubsetOfSameSize(a, b);
    if a == b {
      forall j | 0 <= j < |tree| ensures exists i :: 0 <= i < |m.files| && SameFile(m.files[i], tree[j]) {
        assert Fold(tree[j].path) in b;
        var i :| 0 <= i < |m.files| && Fold(m.files[i].path) == Fold(tree[j].path);
        OnlyMatch(m.files, i, tree, j, rules);
      }
    }
    if NothingExtra(m.files, tree) {
      forall key | key in b ensures key in a {
        var j :| 0 <= j < |tree| && Fold(tree[j].path) == key;
        var i :| 0 <= i < |m.files| && SameFile(m.files[i], tree[j]);
        assert Fold(m.files[i].path) in a;
      }
    }
  }

  lemma TwoFiles(a: Record, b: Record)
    ensures Total([a, b]) == a.size + b.size
  {
    assert [a, b][..1] == [a] && [a][..0] == [];
    assert Total([a]) == a.size;
  }

  /** The second check alone: a manifest of "A" and "a" lets a file pass that it does not name. */
  lemma ForeignFileAccepted(m: Manifest, tree: seq<File>, rules: Rules)
    requires m == Manifest(2, 2, rules.hash(TreeText(m.files)), [Record("A", 1, "s"), Record("a", 1, "s")])
    requires tree == [File("A", 1, "s"), File("foreign", 1, "s")]
    requires rules.safe("A") && rules.safe("a") && rules.safe("foreign") && rules.isSha256("s")
    ensures TreeAccepted(m, tree, rules) && !NothingExtra(m.files, tree)
  {
    assert Fold("A") == Fold("a") == "A" && |Fold("foreign")| == 7;
    TwoFiles(m.files[0], m.files[1]);
    assert SameFile(m.files[0], tree[0]) && SameFile(m.files[1], tree[0]);
    assert KeyLess("A", "a", Utf16Units);
    assert RecordFits(m.files, 0, tree, rules) && RecordFits(m.files, 1, tree, rules);
    assert FilePortable(tree[0], rules) && FilePortable(tree[1], rules);
    NothingExtraIff(m, tree, rules);
  }

  lemma OnlyMatch(files: seq<Record>, i: nat, tree: seq<File>, j: nat, rules: Rules)
    requires i < |files| && j < |tree| && DistinctTree(tree) && RecordFits(files, i, tree, rules)
    requires Fold(files[i].path) == Fold(tree[j].path)
    ensures SameFile(files[i], tree[j])
  {
    var k :| 0 <= k < |tree| && SameFile(files[i], tree[k]);
    assert k == j;
  }

  /**
   When both checks pass, extracted files and manifest records are in bijection up to letter case,
   with equal sizes and digests.
   */
  lemma ExactPayload(m: Manifest, entries: seq<Entry>, tree: seq<File>, rules: Rules)
    requires ListingAccepted(m, entries, rules) && TreeAccepted(m, tree, rules)
    ensures |tree| == |m.files|
    ensures forall i :: 0 <= i < |m.files| ==> IsExtracted(tree, m.files[i])
    ensures NothingExtra(m.files, tree)
    ensures forall i, k, j :: (0 <= i < |m.files| && 0 <= k < |m.files| && 0 <= j < |tree|
                               && SameFile(m.files[i], tree[j]) && SameFile(m.files[k], tree[j])) ==> i == k
  {
    ListingExact(m, entries, rules);
    NothingExtraIff(m, tree, rules);
    forall i | 0 <= i < |m.files| ensures IsExtracted(tree, m.files[i]) {
      assert RecordFits(m.files, i, tree, rules);
    }
  }

  // ---------------------------------------------------------------- the tree digest

  predicate NoNul(text: string) {
    forall i :: 0 <= i < |text| ==> text[i] != '\0'
  }

  /** Equal texts are cut at the same last NUL. */
  lemma {:induction false} CutAtNul(x: string, a: string, y: string, b: string)
    requires NoNul(a) && NoNul(b) && x + "\0" + a == y + "\0" + b
    ensures a == b && x == y
    decreases |a|
  {
    var whole := x + "\0" + a;
    LastChar(x, a);
    LastChar(y, b);
    if a != "" {
      var c, d := a[..|a| - 1], b[..|b| - 1];
      assert x + "\0" + c == whole[..|whole| - 1] == y + "\0" + d;
      CutAtNul(x, c, y, d);
      assert a == c + [whole[|whole| - 1]] && b == d + [whole[|whole| - 1]];
    } else {
      assert x == whole[..|whole| - 1] == y;
    }
  }

  lemma LastChar(x: string, a: string)
    requires NoNul(a)
    ensures (x + "\0" + a)[|x + "\0" + a| - 1] == '\0' <==> a == ""
  {
    if a != "" {
      assert (x + "\0" + a)[|x + "\0" + a| - 1] == a[|a| - 1];
    }
  }

  predicate Digestible(r: Record) {
    r.size >= 0 && NoNul(r.path) && NoNul(r.sha256)
  }

  lemma DropNul(x: string, y: string)
    requires x + "\0" == y + "\0"
    ensures x == y
  {
    assert x == (x + "\0")[..|x|] && y == (y + "\0")[..|y|];
  }

  lemma RecordTextCut(x: string, r: Record, y: string, q: Record)
    requires Digestible(r) && Digestible(q) && |x| > 0 && |y| > 0 && x[|x| - 1] == '\0' && y[|y| - 1] == '\0'
    requires x + RecordText(r) == y + RecordText(q)
    ensures x == y && r == q
  {
    var s, t := SizeText(r.size), SizeText(q.size);
    var u, v := x[..|x| - 1], y[..|y| - 1];
    assert x == u + "\0" && y == v + "\0";
    DecimalReads(r.size);
    DecimalReads(q.size);
    assert x + RecordText(r) == (u + "\0" + r.path + "\0" + s + "\0" + r.sha256) + "\0";
    assert y + RecordText(q) == (v + "\0" + q.path + "\0" + t + "\0" + q.sha256) + "\0";
    DropNul(u + "\0" + r.path + "\0" + s + "\0" + r.sha256, v + "\0" + q.path + "\0" + t + "\0" + q.sha256);
    CutAtNul(u + "\0" + r.path + "\0" + s, r.sha256, v + "\0" + q.path + "\0" + t, q.sha256);
    CutAtNul(u + "\0" + r.path, s, v + "\0" + q.path, t);
    CutAtNul(u, r.path, v, q.path);
  }

  /** The tree digest binds the whole list of records: equal texts come from equal lists. */
  lemma {:induction false} TreeTextInjective(a: seq<Record>, b: seq<Record>)
    requires forall i :: 0 <= i < |a| ==> Digestible(a[i])
    requires forall i :: 0 <= i < |b| ==> Digestible(b[i])
    requires TreeText(a) == TreeText(b)
    ensures a == b
  {
    if a != [] && b != [] {
      var c, d, r, q := a[..|a| - 1], b[..|b| - 1], a[|a| - 1], b[|b| - 1];
      EndsWithNul(c);
      EndsWithNul(d);
      Regroup("\0", TreeText(c), RecordText(r));
      Regroup("\0", TreeText(d), RecordText(q));
      RecordTextCut("\0" + TreeText(c), r, "\0" + TreeText(d), q);
      CancelPrefix("\0", TreeText(c), TreeText(d));
      TreeTextInjective(c, d);
      assert a == c + [r] && b == d + [q];
    }
  }

  lemma Regroup(a: string, b: string, c: string)
    ensures (a + b) + c == a + (b + c)
  {}

  lemma EndsWithNul(files: seq<Record>)
    ensures var text := "\0" + TreeText(files); text[|text| - 1] == '\0'
  {}
}
