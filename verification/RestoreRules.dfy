/** Which archives a restore accepts, written out from their members and their manifest, and why every
    file it publishes has the digest the manifest states. */
module RestoreRules {
  import opened Wrappers
  import opened Bytes
  import opened Paths
  import opened BackupArchive
  import opened MediaBackup
  import opened MediaRestore
  import opened StagedTree
  import opened RestoreArchive

  // ---------- Names ----------

  // The parts with one more character written behind them.
  ghost function Lengthened(parts: Path, c: char): Path
    requires parts != []
  {
    if c == '/' then parts + [""] else parts[..|parts| - 1] + [parts[|parts| - 1] + [c]]
  }

  lemma SplitLast(s: string, c: char)
    ensures Split(s + [c]) == Lengthened(Split(s), c)
  {
    assert (s + [c])[..|s|] == s;
  }

  lemma LengthenedBehind(p: Path, q: Path, c: char)
    requires q != []
    ensures Lengthened(p + q, c) == p + Lengthened(q, c)
  {
  }

  lemma SlashBehind(a: string)
    ensures Split(a + "/") == Split(a) + Split("")
  {
    SplitLast(a, '/');
  }

  lemma {:induction false} SplitSlash(a: string, b: string)
    ensures Split(a + "/" + b) == Split(a) + Split(b)
  {
    hide Split, Lengthened;
    if b == "" {
      SlashBehind(a);
      assert a + "/" + b == a + "/";
    } else {
      var front, last := b[..|b| - 1], b[|b| - 1];
      SplitSlash(a, front);
      SplitLast(a + "/" + front, last);
      SplitLast(front, last);
      LengthenedBehind(Split(a), Split(front), last);
      assert b == front + [last] && a + "/" + b == a + "/" + front + [last];
    }
  }

  lemma {:induction false} KeptConcat(p: Path, q: Path)
    ensures Kept(p + q) == Kept(p) + Kept(q)
  {
    if q == [] {
      assert p + q == p;
    } else {
      assert (p + q)[..|p + q| - 1] == p + q[..|q| - 1];
      KeptConcat(p, q[..|q| - 1]);
    }
  }

  lemma {:induction false} SplitPlain(name: string)
    requires '/' !in name
    ensures Split(name) == [name]
  {
    if name != "" {
      SplitPlain(name[..|name| - 1]);
      assert name == name[..|name| - 1] + [name[|name| - 1]];
    }
  }

  /** A slash separates the parts of a path; a name without one is a part, but for the empty one and the dot. */
  lemma PartsAre(a: string, b: string)
    ensures Parts(a + "/" + b) == Parts(a) + Parts(b)
    ensures '/' !in a ==> Parts(a) == if a == "" || a == "." then [] else [a]
  {
    SplitSlash(a, b);
    KeptConcat(Split(a), Split(b));
    if '/' !in a {
      SplitPlain(a);
      assert [a][..0] == [];
    }
  }

  // A relative path without backslashes and parent references, and its text with single separators.
  ghost predicate Settles(written: string, path: string) {
    && '\\' !in written && !("/" <= written) && ".." !in Parts(written)
    && path == if Parts(written) == [] then "." else Join(Parts(written))
  }

  lemma SettlesIs(written: string, path: string)
    ensures StrictMember(written) == Some(path) <==> Settles(written, path)
  {
    assert "/" <= written <==> written != "" && written[0] == '/';
  }

  // ---------- Lists ----------

  ghost predicate Distinct(names: seq<string>) {
    forall i, j :: 0 <= i < j < |names| ==> names[i] != names[j]
  }

  lemma {:induction false} CountNames(names: seq<string>)
    ensures |Names(names)| <= |names|
    ensures |Names(names)| == |names| <==> Distinct(names)
    ensures forall n :: n in Names(names) <==> n in names
  {
    if names != [] {
      var earlier, last := names[..|names| - 1], names[|names| - 1];
      CountNames(earlier);
      assert names == earlier + [last];
      assert Names(names) == Names(earlier) + {last};
    }
  }

  ghost predicate NotAfter(zip: seq<Member>, name: string, k: nat) {
    forall j :: k < j < |zip| ==> zip[j].filename != name
  }

  // The member `getinfo` gives for a name.
  ghost predicate LastNamed(zip: seq<Member>, name: string, m: Member) {
    exists k :: 0 <= k < |zip| && zip[k] == m && m.filename == name && NotAfter(zip, name, k)
  }

  lemma {:induction false} GetInfoIs(zip: seq<Member>, name: string, m: Member)
    ensures GetInfo(zip, name) == Some(m) <==> LastNamed(zip, name, m)
  {
    if zip != [] {
      var earlier, last := zip[..|zip| - 1], zip[|zip| - 1];
      GetInfoIs(earlier, name, m);
      if k :| 0 <= k < |earlier| && earlier[k] == m && m.filename == name && NotAfter(earlier, name, k) {
        assert zip[k] == m;
        assert last.filename != name ==> NotAfter(zip, name, k);
      }
      if k :| 0 <= k < |zip| && zip[k] == m && m.filename == name && NotAfter(zip, name, k) {
        if k < |earlier| {
          assert zip[|zip| - 1].filename != name;
          assert earlier[k] == m && NotAfter(earlier, name, k);
        }
      }
      if last.filename == name { assert NotAfter(zip, name, |zip| - 1); }
    }
  }

  // The declared sizes of members, and the sizes of entries, added up.
  function SizesOf(zip: seq<Member>): nat {
    if zip == [] then 0 else zip[0].fileSize + SizesOf(zip[1..])
  }

  function EntrySizes(entries: seq<Entry>): nat {
    if entries == [] then 0 else entries[0].size + EntrySizes(entries[1..])
  }

  lemma {:induction false} SizesSnoc(zip: seq<Member>)
    requires zip != []
    ensures SizesOf(zip) == SizesOf(zip[..|zip| - 1]) + zip[|zip| - 1].fileSize
  {
    if |zip| > 1 {
      SizesSnoc(zip[1..]);
      assert zip[1..][..|zip| - 2] == zip[..|zip| - 1][1..];
    }
  }

  lemma {:induction false} DeclaredIs(zip: seq<Member>)
    ensures DeclaredTotal(zip) == SizesOf(zip)
  {
    if zip != [] {
      DeclaredIs(zip[..|zip| - 1]);
      SizesSnoc(zip);
    }
  }

  lemma {:induction false} EntrySizesSnoc(entries: seq<Entry>)
    requires entries != []
    ensures EntrySizes(entries) == EntrySizes(entries[..|entries| - 1]) + entries[|entries| - 1].size
  {
    if |entries| > 1 {
      EntrySizesSnoc(entries[1..]);
      assert entries[1..][..|entries| - 2] == entries[..|entries| - 1][1..];
    }
  }

  // ---------- Members ----------

  // A regular member of at most one GiB under a safe name.
  ghost predicate GoodMember(m: Member, name: string) {
    && Settles(m.filename, name) && !m.notRegular && (name != "" ==> name[|name| - 1] != '/')
    && m.fileSize <= 1_073_741_824
  }

  lemma MemberIs(m: Member, name: string)
    ensures CheckedName(m) == Some(name) <==> GoodMember(m, name)
  {
    hide Settles, StrictMember;
    SettlesIs(m.filename, name);
  }

  ghost predicate GoodMembers(zip: seq<Member>, names: seq<string>) {
    |names| == |zip| && forall i :: 0 <= i < |zip| ==> GoodMember(zip[i], names[i])
  }

  lemma GoodMembersSnoc(zip: seq<Member>, names: seq<string>)
    requires zip != [] && names != []
    ensures GoodMembers(zip, names) <==>
      GoodMembers(zip[..|zip| - 1], names[..|names| - 1]) && GoodMember(zip[|zip| - 1], names[|names| - 1])
  {
    hide GoodMember;
    if |names| == |zip| && GoodMembers(zip[..|zip| - 1], names[..|names| - 1]) {
      forall i | 0 <= i < |zip| - 1
        ensures GoodMember(zip[i], names[i])
      {
        assert GoodMember(zip[..|zip| - 1][i], names[..|names| - 1][i]);
      }
    }
  }

  lemma NoNames(zip: seq<Member>, names: seq<string>)
    requires zip == [] || names == []
    ensures CheckedNames(zip) == Some(names) <==> zip == [] && names == []
    ensures GoodMembers(zip, names) <==> zip == [] && names == []
  {
    hide CheckedName, GoodMember;
    if zip != [] && CheckedNames(zip).Some? { assert |CheckedNames(zip).value| > 0; }
  }

  lemma {:induction false} CheckedNamesIs(zip: seq<Member>, names: seq<string>)
    ensures CheckedNames(zip) == Some(names) <==> GoodMembers(zip, names)
  {
    hide GoodMembers, GoodMember, CheckedName;
    if zip == [] || names == [] {
      NoNames(zip, names);
    } else {
      var before, name := names[..|names| - 1], names[|names| - 1];
      CheckedNamesIs(zip[..|zip| - 1], before);
      MemberIs(zip[|zip| - 1], name);
      GoodMembersSnoc(zip, names);
      assert names == before + [name];
    }
  }

  // ---------- Contents ----------

  // The member of the entry reads as bytes of its size and its digest.
  ghost predicate GoodContent(host: Host, zip: seq<Member>, e: Entry) {
    exists m, content ::
      && LastNamed(zip, e.path, m) && m.fileSize == e.size
      && m.content == Some(content) && |content| == e.size <= 1_073_741_824 && host.hash(content) == e.sha256
  }

  lemma ContentIs(host: Host, zip: seq<Member>, e: Entry)
    ensures CheckContent(host, zip, e).Some? <==> GoodContent(host, zip, e)
    ensures CheckContent(host, zip, e).Some? ==> CheckContent(host, zip, e).value == e.size
  {
    hide LastNamed, GetInfo;
    forall m
      ensures GetInfo(zip, e.path) == Some(m) <==> LastNamed(zip, e.path, m)
    {
      GetInfoIs(zip, e.path, m);
    }
    if GetInfo(zip, e.path).Some? && GetInfo(zip, e.path).value.content.Some? {
      var m := GetInfo(zip, e.path).value;
      assert LastNamed(zip, e.path, m) && m.content == Some(m.content.value);
    }
  }

  lemma {:induction false} ContentsAre(host: Host, zip: seq<Member>, entries: seq<Entry>, start: nat)
    requires entries != []
    ensures CheckContents(host, zip, entries, start).Some? <==>
      && (forall i :: 0 <= i < |entries| ==> GoodContent(host, zip, entries[i]))
      && start + EntrySizes(entries) <= 10_737_418_240
    ensures CheckContents(host, zip, entries, start).Some? ==>
      CheckContents(host, zip, entries, start).value == start + EntrySizes(entries)
  {
    hide GoodContent, CheckContent;
    var earlier, last := entries[..|entries| - 1], entries[|entries| - 1];
    ContentIs(host, zip, last);
    EntrySizesSnoc(entries);
    assert forall i :: 0 <= i < |earlier| ==> earlier[i] == entries[i];
    if earlier == [] {
      assert CheckContents(host, zip, earlier, start) == Some(start);
    } else {
      ContentsAre(host, zip, earlier, start);
    }
  }

  // ---------- The manifest ----------

  ghost predicate KindOfPath(path: string, kind: string) {
    || (path == "database.dump" && kind == "database")
    || ("media/objects/" <= path && kind == "objects")
    || ("media/thumbnails/" <= path && kind == "thumbnails")
  }

  // The item states the entry: four fields, a safe path of the right kind, a size and a digest.
  ghost predicate States(host: Host, item: Py, e: Entry) {
    && item.PyDict? && item.entries.Keys == {"path", "kind", "size", "sha256"}
    && item.entries["path"].PyStr? && Settles(item.entries["path"].s, e.path)
    && item.entries["kind"] == PyStr(e.kind) && KindOfPath(e.path, e.kind)
    && item.entries["size"] == PyInt(e.size)
    && item.entries["sha256"] == PyStr(e.sha256) && |e.sha256| == 64 && host.isHex(e.sha256)
  }

  lemma KindIs(path: string, kind: string)
    ensures KindMatches(path, PyStr(kind)) <==> KindOfPath(path, kind)
  {
    assert "media/objects/"[6] == 'o' && "media/thumbnails/"[6] == 't' && "database.dump"[6] == 's';
  }

  lemma StatesIs(host: Host, item: Py, e: Entry)
    ensures CheckEntry(host, item) == Some(e) <==> States(host, item, e)
  {
    hide Settles, StrictMember, KindMatches, KindOfPath;
    KindIs(e.path, e.kind);
    if item.PyDict? && item.entries.Keys == {"path", "kind", "size", "sha256"} && item.entries["path"].PyStr? {
      SettlesIs(item.entries["path"].s, e.path);
      if StrictMember(item.entries["path"].s).Some? {
        SettlesIs(item.entries["path"].s, StrictMember(item.entries["path"].s).value);
      }
    }
  }

  ghost predicate DistinctPaths(entries: seq<Entry>) {
    forall i, j :: 0 <= i < j < |entries| ==> entries[i].path != entries[j].path
  }

  ghost predicate StatesAll(host: Host, items: seq<Py>, entries: seq<Entry>) {
    && |entries| == |items| && DistinctPaths(entries)
    && forall i :: 0 <= i < |items| ==> States(host, items[i], entries[i])
  }

  lemma StatesSnoc(host: Host, items: seq<Py>, entries: seq<Entry>)
    requires items != [] && entries != []
    ensures var before, last := entries[..|entries| - 1], entries[|entries| - 1];
      StatesAll(host, items, entries) <==>
        && StatesAll(host, items[..|items| - 1], before) && States(host, items[|items| - 1], last)
        && last.path !in PathsOf(before)
  {
    hide States;
    var earlier, before, last := items[..|items| - 1], entries[..|entries| - 1], entries[|entries| - 1];
    assert forall i :: 0 <= i < |before| ==> before[i] == entries[i];
    assert forall i :: 0 <= i < |earlier| ==> earlier[i] == items[i];
    if StatesAll(host, earlier, before) && States(host, items[|items| - 1], last) && last.path !in PathsOf(before) {
      forall i | 0 <= i < |items|
        ensures States(host, items[i], entries[i])
      {
        if i < |earlier| { assert States(host, earlier[i], before[i]); }
      }
      assert forall i :: 0 <= i < |before| ==> before[i].path in PathsOf(before);
    }
  }

  lemma NothingStated(host: Host, items: seq<Py>, entries: seq<Entry>)
    requires items == [] || entries == []
    ensures ParseEntries(host, items) == Some(entries) <==> items == [] && entries == []
    ensures StatesAll(host, items, entries) <==> items == [] && entries == []
  {
    hide CheckEntry, States, PathsOf;
    if items != [] && ParseEntries(host, items).Some? { assert |ParseEntries(host, items).value| > 0; }
  }

  lemma {:induction false} ParseIs(host: Host, items: seq<Py>, entries: seq<Entry>)
    ensures ParseEntries(host, items) == Some(entries) <==> StatesAll(host, items, entries)
  {
    hide StatesAll, States, CheckEntry, PathsOf;
    if items == [] || entries == [] {
      NothingStated(host, items, entries);
    } else {
      var before, last := entries[..|entries| - 1], entries[|entries| - 1];
      ParseIs(host, items[..|items| - 1], before);
      StatesIs(host, items[|items| - 1], last);
      StatesSnoc(host, items, entries);
      assert entries == before + [last];
    }
  }

  // A text that is not blank.
  ghost predicate Written(host: Host, v: Py) {
    v.PyStr? && !host.isBlank(v.s)
  }

  // The manifest has the six fields, written texts, a UTC time, and states the entries, of which one is
  // the database dump.
  ghost predicate Lists(host: Host, value: Py, entries: seq<Entry>) {
    && value.PyDict?
    && value.entries.Keys ==
       {"schema_version", "application_revision", "created_at", "file_count", "expected_restore_procedure", "files"}
    && Written(host, value.entries["schema_version"]) && Written(host, value.entries["application_revision"])
    && Written(host, value.entries["expected_restore_procedure"])
    && value.entries["created_at"].PyStr? && host.isUtc(value.entries["created_at"].s)
    && value.entries["files"].PyList? && StatesAll(host, value.entries["files"].items, entries)
    && value.entries["file_count"] == PyInt(|entries|)
    && exists i :: 0 <= i < |entries| && entries[i].path == "database.dump"
  }

  lemma SameLength(host: Host, items: seq<Py>, entries: seq<Entry>)
    ensures StatesAll(host, items, entries) ==> |items| == |entries|
  {
  }

  lemma ManifestIs(host: Host, raw: Octets, entries: seq<Entry>)
    ensures ParseManifest(host, raw) == Some(entries) <==>
      |raw| <= 1_048_576 && host.load(raw).Some? && Lists(host, host.load(raw).value, entries)
  {
    hide ParseEntries, StatesAll;
    if host.load(raw).Some? && host.load(raw).value.PyDict? && "files" in host.load(raw).value.entries
       && host.load(raw).value.entries["files"].PyList? {
      var items := host.load(raw).value.entries["files"].items;
      ParseIs(host, items, entries);
      assert StatesAll(host, items, entries) ==> |items| == |entries| by { SameLength(host, items, entries); }
    }
  }

  // ---------- The archive ----------

  ghost predicate NamedBy(names: seq<string>, entries: seq<Entry>) {
    forall n :: n in names <==> n == "manifest.json" || exists i :: 0 <= i < |entries| && entries[i].path == n
  }

  // Members of distinct safe names, those of the entries and of the manifest, of at most ten GiB together.
  ghost predicate GoodNames(zip: seq<Member>, entries: seq<Entry>) {
    && SizesOf(zip) <= 10_737_418_240
    && exists names :: GoodMembers(zip, names) && Distinct(names) && NamedBy(names, entries)
  }

  // The manifest, of at most one MiB, lists the entries, and each of them has its bytes, all within ten GiB.
  ghost predicate GoodContents(host: Host, zip: seq<Member>, entries: seq<Entry>) {
    exists m, raw ::
      && LastNamed(zip, "manifest.json", m) && m.content == Some(raw) && m.fileSize == |raw| <= 1_048_576
      && host.load(raw).Some? && Lists(host, host.load(raw).value, entries)
      && (forall i :: 0 <= i < |entries| ==> GoodContent(host, zip, entries[i]))
      && |raw| + EntrySizes(entries) <= 10_737_418_240
  }

  ghost predicate NamesAccepted(zip: seq<Member>, entries: seq<Entry>) {
    && CheckedNames(zip).Some? && DeclaredTotal(zip) <= MAX_ARCHIVE_BYTES
    && var names := CheckedNames(zip).value;
    |names| == |Names(names)| && Names(names) == PathsOf(entries) + {"manifest.json"}
  }

  lemma PathsAre(entries: seq<Entry>, n: string)
    ensures n in PathsOf(entries) <==> exists i :: 0 <= i < |entries| && entries[i].path == n
  {
  }

  lemma NamedByIs(names: seq<string>, entries: seq<Entry>)
    ensures Names(names) == PathsOf(entries) + {"manifest.json"} <==> NamedBy(names, entries)
  {
    hide Names, PathsOf;
    CountNames(names);
    var left, right := Names(names), PathsOf(entries) + {"manifest.json"};
    forall n
      ensures n in left <==> n in names
      ensures n in right <==> n == "manifest.json" || exists i :: 0 <= i < |entries| && entries[i].path == n
    {
      PathsAre(entries, n);
    }
    if NamedBy(names, entries) { assert forall n :: n in left <==> n in right; }
  }

  lemma NamesAre(zip: seq<Member>, entries: seq<Entry>)
    ensures NamesAccepted(zip, entries) <==> GoodNames(zip, entries)
    ensures NamesAccepted(zip, entries) ==> "manifest.json" in CheckedNames(zip).value
  {
    hide CheckedNames, DeclaredTotal, SizesOf, GoodMembers, Distinct, NamedBy, PathsOf;
    DeclaredIs(zip);
    forall names
      ensures CheckedNames(zip) == Some(names) <==> GoodMembers(zip, names)
      ensures |names| == |Names(names)| <==> Distinct(names)
      ensures Names(names) == PathsOf(entries) + {"manifest.json"} <==> NamedBy(names, entries)
      ensures forall n :: n in Names(names) <==> n in names
    {
      CheckedNamesIs(zip, names);
      CountNames(names);
      NamedByIs(names, entries);
    }
    if CheckedNames(zip).Some? {
      var names := CheckedNames(zip).value;
      assert GoodMembers(zip, names);
      assert "manifest.json" in PathsOf(entries) + {"manifest.json"};
    }
  }

  lemma SomeEntry(host: Host, raw: Octets, entries: seq<Entry>)
    requires host.load(raw).Some? && Lists(host, host.load(raw).value, entries)
    ensures entries != []
  {
  }

  lemma ContentsGood(host: Host, zip: seq<Member>, raw: Octets, entries: seq<Entry>)
    requires ReadManifest(zip) == Some(raw)
    ensures GoodContents(host, zip, entries) <==>
      ParseManifest(host, raw) == Some(entries) && CheckContents(host, zip, entries, |raw|).Some?
  {
    hide Lists, CheckContents, ParseManifest, GoodContent, EntrySizes, LastNamed, GetInfo;
    ManifestIs(host, raw, entries);
    if host.load(raw).Some? && Lists(host, host.load(raw).value, entries) { SomeEntry(host, raw, entries); }
    if entries != [] { ContentsAre(host, zip, entries, |raw|); }
    forall m
      ensures GetInfo(zip, "manifest.json") == Some(m) <==> LastNamed(zip, "manifest.json", m)
    {
      GetInfoIs(zip, "manifest.json", m);
    }
  }

  lemma ManifestMissing(host: Host, zip: seq<Member>, entries: seq<Entry>)
    requires ReadManifest(zip).None?
    ensures !GoodContents(host, zip, entries)
  {
    hide Lists, GoodContent, EntrySizes, LastNamed, GetInfo;
    forall m
      ensures GetInfo(zip, "manifest.json") == Some(m) <==> LastNamed(zip, "manifest.json", m)
    {
      GetInfoIs(zip, "manifest.json", m);
    }
  }

  /** An archive is accepted, with these entries, exactly when its members and its contents are good. */
  lemma AcceptedIs(host: Host, zip: seq<Member>, entries: seq<Entry>)
    ensures ValidateZip(host, zip) == Some(entries) <==> GoodNames(zip, entries) && GoodContents(host, zip, entries)
  {
    hide CheckedNames, DeclaredTotal, ReadManifest, ParseManifest, CheckContents, SizesOf, GoodNames, GoodContents,
      Names, PathsOf;
    DeclaredIs(zip);
    NamesAre(zip, entries);
    if ReadManifest(zip).Some? {
      var raw := ReadManifest(zip).value;
      ContentsGood(host, zip, raw, entries);
    } else {
      ManifestMissing(host, zip, entries);
    }
  }

  // ---------- What a restore publishes ----------

  ghost predicate EntryAt(zip: seq<Member>, entries: seq<Entry>, i: nat, p: Path, content: Octets) {
    && i < |entries| && Parts(entries[i].path) == p
    && GetInfo(zip, entries[i].path).Some? && GetInfo(zip, entries[i].path).value.content == Some(content)
  }

  lemma {:induction false} ExtractedFiles(zip: seq<Member>, entries: seq<Entry>, p: Path, content: Octets)
    requires Extract(zip, entries).Some?
    ensures FileAt(Extract(zip, entries).value, p, content) <==> exists i: nat :: EntryAt(zip, entries, i, p, content)
  {
    if entries != [] {
      hide ExtractOne, Parts, GetInfo, ParentsOf;
      var earlier, last := entries[..|entries| - 1], entries[|entries| - 1];
      var t := Extract(zip, earlier).value;
      ExtractedFiles(zip, earlier, p, content);
      ExtractedOne(t, zip, last);
      forall i: nat
        ensures EntryAt(zip, entries, i, p, content) <==>
          EntryAt(zip, earlier, i, p, content) || (i == |earlier| && EntryAt(zip, entries, i, p, content))
      {
      }
      if Parts(last.path) == p && GetInfo(zip, last.path).value.content == Some(content) {
        assert EntryAt(zip, entries, |earlier|, p, content);
      }
      if i: nat :| EntryAt(zip, earlier, i, p, content) { assert EntryAt(zip, entries, i, p, content); }
    }
  }

  // The bytes are those the entry states.
  ghost predicate Digested(host: Host, e: Entry, content: Octets) {
    |content| == e.size && host.hash(content) == e.sha256
  }

  lemma EntryIndex(zip: seq<Member>, entries: seq<Entry>, p: Path, content: Octets)
    ensures forall i: nat :: EntryAt(zip, entries, i, p, content) ==> i < |entries|
  {
  }

  lemma AcceptedDigests(host: Host, zip: seq<Member>, entries: seq<Entry>, i: nat, p: Path, content: Octets)
    requires ValidateZip(host, zip) == Some(entries) && EntryAt(zip, entries, i, p, content)
    ensures Digested(host, entries[i], content)
  {
    hide ValidateZip, GoodNames, Lists, GetInfo, LastNamed, EntrySizes, Parts;
    AcceptedIs(host, zip, entries);
    assert GoodContent(host, zip, entries[i]);
    var m, there :|
      && LastNamed(zip, entries[i].path, m) && m.fileSize == entries[i].size
      && m.content == Some(there) && |there| == entries[i].size <= 1_073_741_824
      && host.hash(there) == entries[i].sha256;
    GetInfoIs(zip, entries[i].path, m);
  }

  /** The tree a restore publishes holds a file exactly where the manifest lists one below `media`, and
      every file in it has the size and the digest its entry states. */
  lemma PublishedIsDigested(host: Host, zip: seq<Member>, p: Path, content: Octets)
    requires ValidateZip(host, zip).Some? && Extract(zip, ValidateZip(host, zip).value).Some?
    ensures var entries := ValidateZip(host, zip).value;
      HasFile(RestoredTree(host, zip).children, p, content) <==>
      p != []
      && exists i: nat :: EntryAt(zip, entries, i, ["media"] + p, content) && Digested(host, entries[i], content)
  {
    hide ValidateZip, Extract, SafeEntries, StagedMedia, WellNamed, Regular, Free, Unobstructed, FileAt, EntryAt,
      HasFile;
    var entries := ValidateZip(host, zip).value;
    AcceptedAreSafe(host, zip);
    StagedIsUnpacked(zip, entries);
    ExtractedFiles(zip, entries, ["media"] + p, content);
    EntryIndex(zip, entries, ["media"] + p, content);
    forall i: nat | EntryAt(zip, entries, i, ["media"] + p, content)
      ensures Digested(host, entries[i], content)
    {
      AcceptedDigests(host, zip, entries, i, ["media"] + p, content);
    }
  }

  // ---------- When a restore can succeed ----------

  // The bytes of the entry can be read.
  ghost predicate Readable(zip: seq<Member>, e: Entry) {
    GetInfo(zip, e.path).Some? && GetInfo(zip, e.path).value.content.Some?
  }

  // No two entries go to one place, and none below another one or onto a directory that is made first.
  ghost predicate Apart(entries: seq<Entry>) {
    && (forall i :: 0 <= i < |entries| ==>
          Parts(entries[i].path) !in {[], ["media"], ["media", "objects"], ["media", "thumbnails"]})
    && forall i, j :: 0 <= i < |entries| && 0 <= j < |entries| && i != j ==>
         !(Parts(entries[i].path) <= Parts(entries[j].path))
  }

  // What unpacking has made: a file for each entry, and the directories above them.
  ghost predicate Unpacked(t: Tree, entries: seq<Entry>) {
    && (forall p :: p in t.files <==> exists i :: 0 <= i < |entries| && Parts(entries[i].path) == p)
    && (forall p :: p in t.dirs <==>
          || p in {[], ["media"], ["media", "objects"], ["media", "thumbnails"]}
          || exists i :: 0 <= i < |entries| && p < Parts(entries[i].path))
  }

  lemma ParentsAre(p: Path, d: Path)
    ensures d in ParentsOf(p) <==> d < p
  {
    if d < p { assert d == p[..|d|]; }
  }

  // One more entry fits exactly when it stays apart from those before it.
  ghost predicate Fits(entries: seq<Entry>, p: Path) {
    && p !in {[], ["media"], ["media", "objects"], ["media", "thumbnails"]}
    && forall i :: 0 <= i < |entries| ==> !(Parts(entries[i].path) <= p) && !(p <= Parts(entries[i].path))
  }

  lemma OneFits(t: Tree, zip: seq<Member>, entries: seq<Entry>, e: Entry)
    requires Unpacked(t, entries)
    ensures ExtractOne(t, zip, e).Some? <==> Readable(zip, e) && Fits(entries, Parts(e.path))
  {
    hide Parts, GetInfo, ParentsOf;
    var p := Parts(e.path);
    forall d
      ensures d in ParentsOf(p) <==> d < p
    {
      ParentsAre(p, d);
    }
    if !Fits(entries, p) {
      if i :| 0 <= i < |entries| && (Parts(entries[i].path) <= p || p <= Parts(entries[i].path)) {
        var other := Parts(entries[i].path);
        assert other in t.files;
        assert other < p || other == p || p < other;
        assert p < other ==> p in t.dirs;
      } else {
        assert p in t.dirs;
      }
    }
  }

  lemma OneMore(t: Tree, zip: seq<Member>, entries: seq<Entry>, e: Entry)
    requires Unpacked(t, entries) && ExtractOne(t, zip, e).Some?
    ensures Unpacked(ExtractOne(t, zip, e).value, entries + [e])
  {
    hide Parts, GetInfo, ParentsOf;
    forall d
      ensures d in ParentsOf(Parts(e.path)) <==> d < Parts(e.path)
    {
      ParentsAre(Parts(e.path), d);
    }
    var all := entries + [e];
    assert all[|entries|] == e;
    assert forall i :: 0 <= i < |entries| ==> all[i] == entries[i];
  }

  lemma ApartStep(entries: seq<Entry>)
    requires entries != []
    ensures var earlier := entries[..|entries| - 1];
      Apart(entries) <==> Apart(earlier) && Fits(earlier, Parts(entries[|entries| - 1].path))
  {
    hide Parts;
  }

  ghost predicate AllReadable(zip: seq<Member>, entries: seq<Entry>) {
    forall i :: 0 <= i < |entries| ==> Readable(zip, entries[i])
  }

  lemma ReadableStep(zip: seq<Member>, entries: seq<Entry>)
    requires entries != []
    ensures AllReadable(zip, entries) <==>
      AllReadable(zip, entries[..|entries| - 1]) && Readable(zip, entries[|entries| - 1])
  {
    hide Readable;
  }

  lemma NothingUnpacked(zip: seq<Member>)
    ensures Extract(zip, []) == Some(EMPTY_STAGE) && Unpacked(EMPTY_STAGE, [])
    ensures AllReadable(zip, []) && Apart([])
  {
  }

  /** Unpacking succeeds exactly when every entry can be read and they stay apart. */
  lemma {:induction false} ExtractsExactly(zip: seq<Member>, entries: seq<Entry>)
    ensures Extract(zip, entries).Some? <==> AllReadable(zip, entries) && Apart(entries)
    ensures Extract(zip, entries).Some? ==> Unpacked(Extract(zip, entries).value, entries)
  {
    hide ExtractOne, Unpacked, Apart, Fits, Readable, AllReadable;
    if entries == [] {
      NothingUnpacked(zip);
    } else {
      var earlier, last := entries[..|entries| - 1], entries[|entries| - 1];
      ExtractsExactly(zip, earlier);
      ApartStep(entries);
      ReadableStep(zip, entries);
      if Extract(zip, earlier).Some? { OneFits(Extract(zip, earlier).value, zip, earlier, last); }
      if Extract(zip, entries).Some? { OneMore(Extract(zip, earlier).value, zip, earlier, last); }
      assert entries == earlier + [last];
    }
  }

  lemma AcceptedReadable(host: Host, zip: seq<Member>, entries: seq<Entry>, i: nat)
    requires ValidateZip(host, zip) == Some(entries) && i < |entries|
    ensures Readable(zip, entries[i])
  {
    hide ValidateZip, GoodNames, Lists, GetInfo, LastNamed, EntrySizes, Parts;
    AcceptedIs(host, zip, entries);
    assert GoodContent(host, zip, entries[i]);
    var m, there :|
      && LastNamed(zip, entries[i].path, m) && m.fileSize == entries[i].size
      && m.content == Some(there) && |there| == entries[i].size <= 1_073_741_824
      && host.hash(there) == entries[i].sha256;
    GetInfoIs(zip, entries[i].path, m);
  }

  /** A restore can succeed exactly when the target is missing or a directory that is empty or may be replaced,
      it lies in a directory, and the archive is good and its paths stay apart. */
  lemma RestorableIs(host: Host, zip: seq<Member>, target: Option<Node>, parentIsDirectory: bool, allowNonempty: bool)
    ensures Restorable(host, zip, target, parentIsDirectory, allowNonempty) <==>
      && parentIsDirectory
      && (target == None || (target.value.Directory? && (allowNonempty || target.value.children == [])))
      && exists entries :: GoodNames(zip, entries) && GoodContents(host, zip, entries) && Apart(entries)
  {
    hide ValidateZip, GoodNames, GoodContents, Extract, Apart, Readable, Unpacked;
    if ValidateZip(host, zip).Some? {
      var entries := ValidateZip(host, zip).value;
      AcceptedIs(host, zip, entries);
      ExtractsExactly(zip, entries);
      forall i: nat | i < |entries|
        ensures Readable(zip, entries[i])
      {
        AcceptedReadable(host, zip, entries, i);
      }
    }
    forall entries | GoodNames(zip, entries) && GoodContents(host, zip, entries)
      ensures ValidateZip(host, zip) == Some(entries)
    {
      AcceptedIs(host, zip, entries);
    }
  }
}
