/** A backup is accepted exactly when it keeps within the restore's limits, and restoring it gives
    back the same files. */
module BackupRoundTrip {
  import opened Wrappers
  import opened Bytes
  import opened Paths
  import opened BackupArchive
  import opened MediaBackup
  import opened MediaRestore

  // ---------- The files of an archive, by path ----------

  // The files an archive stores, in order: the dump, the media below `media`, and the manifest.
  function MediaFile(f: Found): Found {
    Found(["media"] + f.path, f.content)
  }

  function ListedFiles(dump: Octets, found: seq<Found>): seq<Found> {
    [Found(["database.dump"], dump)] + seq(|found|, i requires 0 <= i < |found| => MediaFile(found[i]))
  }

  function AllFiles(dump: Octets, found: seq<Found>, manifest: Octets): seq<Found> {
    ListedFiles(dump, found) + [Found(["manifest.json"], manifest)]
  }

  predicate IsMedia(p: Path) {
    |p| >= 3 && p[0] == "media" && (p[1] == "objects" || p[1] == "thumbnails")
  }

  ghost predicate GoodPath(p: Path) {
    ValidPath(p) && p != [] && (p == ["database.dump"] || p == ["manifest.json"] || IsMedia(p))
  }

  // Valid paths, none of them another one or a directory of another one.
  ghost predicate GoodFiles(files: seq<Found>) {
    AllApart(files) && forall i :: 0 <= i < |files| ==> GoodPath(files[i].path)
  }

  // What collecting guarantees.
  ghost predicate GoodFound(found: seq<Found>) {
    AllApart(found) && forall i :: 0 <= i < |found| ==>
      ValidPath(found[i].path) && |found[i].path| >= 2
        && (found[i].path[0] == "objects" || found[i].path[0] == "thumbnails")
  }

  function MemberOf(f: Found): Member {
    Stored(Join(f.path), f.content)
  }

  function Members(files: seq<Found>): seq<Member> {
    seq(|files|, i requires 0 <= i < |files| => MemberOf(files[i]))
  }

  function ListedKind(p: Path): string {
    if |p| < 2 then "database" else p[1]
  }

  function ListedEntry(host: Host, f: Found): Entry {
    EntryOf(host, Join(f.path), ListedKind(f.path), f.content)
  }

  function ListedEntries(host: Host, files: seq<Found>): (entries: seq<Entry>)
    ensures |entries| == |files|
  {
    seq(|files|, i requires 0 <= i < |files| => ListedEntry(host, files[i]))
  }

  lemma MemberNameIs(f: Found)
    requires ValidPath(f.path) && f.path != []
    ensures MemberName(f) == Join(["media"] + f.path)
  {
    JoinBelow(["media"], f.path);
    assert "media" + "/" == "media/";
    SafeMemberJoin(["media"] + f.path);
  }

  // The archive and its manifest, seen as lists of paths with their contents.
  lemma ArchiveFiles(host: Host, dump: Octets, found: seq<Found>, manifest: Octets)
    requires GoodFound(found)
    ensures ArchiveOf(dump, found, manifest) == Members(AllFiles(dump, found, manifest))
    ensures ManifestEntries(host, dump, found) == ListedEntries(host, ListedFiles(dump, found))
  {
    hide MemberName, Join;
    JoinOne("database.dump");
    JoinOne("manifest.json");
    forall i | 0 <= i < |found|
      ensures MemberName(found[i]) == Join(MediaFile(found[i]).path)
    {
      MemberNameIs(found[i]);
    }
  }

  lemma JoinOne(name: string)
    ensures Join([name]) == name
  {
  }

  lemma ApartByFirst(p: Path, q: Path)
    requires p != [] && q != [] && p[0] != q[0]
    ensures Apart(p, q)
  {
  }

  lemma AllFilesGood(dump: Octets, found: seq<Found>, manifest: Octets)
    requires GoodFound(found)
    ensures GoodFiles(AllFiles(dump, found, manifest)) && GoodFiles(ListedFiles(dump, found))
  {
    hide Apart;
    var all := AllFiles(dump, found, manifest);
    forall i, j | 0 <= i < j < |all|
      ensures Apart(all[i].path, all[j].path)
    {
      if 0 < i && j < |all| - 1 {
        ApartBelow(["media"], found[i - 1].path, found[j - 1].path);
      } else {
        ApartByFirst(all[i].path, all[j].path);
      }
    }
    forall i | 0 <= i < |all|
      ensures GoodPath(all[i].path)
    {
      if 0 < i < |all| - 1 {
        assert all[i].path[1..] == found[i - 1].path;
        assert all[i].path[1] == found[i - 1].path[0];
        assert forall k :: 1 <= k < |all[i].path| ==> all[i].path[k] == found[i - 1].path[k - 1];
      }
    }
    assert forall i :: 0 <= i < |found| + 1 ==> ListedFiles(dump, found)[i] == all[i];
  }

  // ---------- Limits ----------

  predicate Clean(p: Path) {
    forall k | 0 <= k < |p| :: '\\' !in p[k]
  }

  ghost predicate NoBackslash(files: seq<Found>) {
    forall i :: 0 <= i < |files| ==> Clean(files[i].path)
  }

  ghost predicate MembersFit(files: seq<Found>) {
    forall i :: 0 <= i < |files| ==> |files[i].content| <= MAX_MEMBER_BYTES
  }

  function TotalSize(files: seq<Found>): nat {
    if files == [] then 0 else TotalSize(files[..|files| - 1]) + |files[|files| - 1].content|
  }

  /** Names without a backslash, sizes within the limits, and a manifest of at most one MiB. */
  ghost predicate Fits(dump: Octets, found: seq<Found>, manifest: Octets) {
    var all := AllFiles(dump, found, manifest);
    NoBackslash(all) && MembersFit(all) && TotalSize(all) <= MAX_ARCHIVE_BYTES && |manifest| <= MAX_MANIFEST_BYTES
  }

  /** What is assumed of the host: JSON written is read back, and digests are 64 hexadecimal digits. */
  ghost predicate SoundHost(host: Host) {
    && (forall v :: host.load(host.dump(v)) == Some(v))
    && (forall content :: |host.hash(content)| == 64 && host.isHex(host.hash(content)))
  }

  predicate ValidHeaderTexts(host: Host, header: Header) {
    && !host.isBlank(header.schemaVersion) && !host.isBlank(header.applicationRevision)
    && host.isUtc(header.createdAt) && !host.isBlank(header.procedure)
  }

  // ---------- Names ----------

  lemma StrictJoin(p: Path)
    requires ValidPath(p) && p != []
    ensures StrictMember(Join(p)).Some? <==> Clean(p)
    ensures StrictMember(Join(p)).Some? ==> StrictMember(Join(p)).value == Join(p)
  {
    SafeMemberJoin(p);
    JoinContains(p, '\\');
  }

  lemma {:induction false} JoinEnd(p: Path)
    requires ValidPath(p) && p != []
    ensures Join(p) != "" && Join(p)[|Join(p)| - 1] != '/'
  {
  }

  lemma CheckedNameIs(f: Found)
    requires ValidPath(f.path) && f.path != []
    ensures CheckedName(MemberOf(f)).Some? <==> Clean(f.path) && |f.content| <= MAX_MEMBER_BYTES
    ensures CheckedName(MemberOf(f)).Some? ==> CheckedName(MemberOf(f)).value == Join(f.path)
  {
    hide StrictMember, Join;
    StrictJoin(f.path);
    JoinEnd(f.path);
  }

  function PathTexts(files: seq<Found>): seq<string> {
    seq(|files|, i requires 0 <= i < |files| => Join(files[i].path))
  }

  lemma LimitsStep(files: seq<Found>)
    requires files != []
    ensures var earlier, last := files[..|files| - 1], files[|files| - 1];
      && (NoBackslash(files) <==> NoBackslash(earlier) && Clean(last.path))
      && (MembersFit(files) <==> MembersFit(earlier) && |last.content| <= MAX_MEMBER_BYTES)
  {
  }

  lemma MembersStep(files: seq<Found>)
    requires files != []
    ensures var earlier, last := files[..|files| - 1], files[|files| - 1];
      && Members(files)[..|Members(files)| - 1] == Members(earlier)
      && |Members(files)| == |files| && Members(files)[|files| - 1] == MemberOf(last)
      && PathTexts(files) == PathTexts(earlier) + [Join(last.path)]
  {
  }

  lemma CheckedNamesStep(files: seq<Found>)
    requires files != [] && ValidPath(files[|files| - 1].path) && files[|files| - 1].path != []
    ensures var earlier, last := files[..|files| - 1], files[|files| - 1];
      var before := CheckedNames(Members(earlier));
      && (CheckedNames(Members(files)).Some? <==>
          before.Some? && Clean(last.path) && |last.content| <= MAX_MEMBER_BYTES)
      && (CheckedNames(Members(files)).Some? ==>
          CheckedNames(Members(files)).value == before.value + [Join(last.path)])
      && PathTexts(files) == PathTexts(earlier) + [Join(last.path)]
  {
    hide CheckedName, Join, Clean, Members, PathTexts, MemberOf;
    CheckedNameIs(files[|files| - 1]);
    MembersStep(files);
  }

  lemma {:induction false} CheckedNamesAre(files: seq<Found>)
    requires forall i :: 0 <= i < |files| ==> GoodPath(files[i].path)
    ensures CheckedNames(Members(files)).Some? <==> NoBackslash(files) && MembersFit(files)
    ensures CheckedNames(Members(files)).Some? ==> CheckedNames(Members(files)).value == PathTexts(files)
  {
    if files == [] {
      assert Members(files) == [] && PathTexts(files) == [];
    } else {
      var earlier, last := files[..|files| - 1], files[|files| - 1];
      assert forall i :: 0 <= i < |earlier| ==> earlier[i] == files[i];
      GoodIsValid(last.path);
      hide CheckedNames, Join, GoodPath, NoBackslash, MembersFit, Clean, Members, PathTexts;
      CheckedNamesAre(earlier);
      CheckedNamesStep(files);
      LimitsStep(files);
    }
  }

  lemma GoodIsValid(p: Path)
    requires GoodPath(p)
    ensures ValidPath(p) && p != []
  {
  }

  lemma {:induction false} DeclaredIs(files: seq<Found>)
    ensures DeclaredTotal(Members(files)) == TotalSize(files)
  {
    if files != [] {
      DeclaredIs(files[..|files| - 1]);
      assert Members(files)[..|files| - 1] == Members(files[..|files| - 1]);
    }
  }

  lemma ApartTexts(files: seq<Found>, i: nat, j: nat)
    requires GoodFiles(files) && i < |files| && j < |files| && i != j
    ensures Join(files[i].path) != Join(files[j].path)
  {
    hide Join;
    var p, q := files[i].path, files[j].path;
    assert Apart(p, q) || Apart(q, p);
    JoinInjective(p, q);
  }

  lemma {:induction false} DistinctCount(names: seq<string>)
    requires forall i, j :: 0 <= i < j < |names| ==> names[i] != names[j]
    ensures |Names(names)| == |names|
  {
    if names != [] {
      var earlier, last := names[..|names| - 1], names[|names| - 1];
      DistinctCount(earlier);
      assert Names(names) == Names(earlier) + {last} by {
        assert forall i :: 0 <= i < |earlier| ==> earlier[i] == names[i];
      }
      assert last !in Names(earlier);
    }
  }

  lemma InfoOf(files: seq<Found>, i: nat)
    requires GoodFiles(files) && i < |files|
    ensures GetInfo(Members(files), Join(files[i].path)) == Some(MemberOf(files[i]))
  {
    hide Join;
    forall j, k | 0 <= j < k < |files|
      ensures Members(files)[j].filename != Members(files)[k].filename
    {
      ApartTexts(files, j, k);
    }
    GetInfoFinds(Members(files), i);
  }

  // ---------- The manifest ----------

  lemma MediaText(p: Path)
    requires IsMedia(p) && ValidPath(p)
    ensures Join(p) == (if p[1] == "objects" then "media/objects/" else "media/thumbnails/") + Join(p[2..])
  {
    assert p == p[..2] + p[2..];
    JoinBelow(p[..2], p[2..]);
    assert p[..2] == ["media"] + [p[1]];
    JoinBelow(["media"], [p[1]]);
    JoinOne("media");
    JoinOne(p[1]);
    hide Join;
    assert Join(p[..2]) + "/" == "media" + "/" + p[1] + "/";
    assert "media" + "/" + "objects" + "/" == "media/objects/";
    assert "media" + "/" + "thumbnails" + "/" == "media/thumbnails/";
  }

  lemma NotTheDump(p: Path)
    requires IsMedia(p) && ValidPath(p)
    ensures Join(p) != "database.dump"
  {
    JoinOne("database.dump");
    JoinInjective(p, ["database.dump"]);
  }

  lemma KindOfText(text: string, rest: string)
    requires text != "database.dump"
    ensures text == "media/objects/" + rest ==> KindMatches(text, PyStr("objects"))
    ensures text == "media/thumbnails/" + rest ==> KindMatches(text, PyStr("thumbnails"))
  {
    if text == "media/thumbnails/" + rest {
      assert text[6] == 't';
    }
  }

  lemma KindMatchesPath(p: Path)
    requires GoodPath(p) && p != ["manifest.json"]
    ensures KindMatches(Join(p), PyStr(ListedKind(p)))
  {
    JoinOne("database.dump");
    hide Join;
    if p != ["database.dump"] {
      MediaText(p);
      NotTheDump(p);
      KindOfText(Join(p), Join(p[2..]));
    }
  }

  lemma HashChecks(host: Host, content: Octets)
    requires SoundHost(host)
    ensures |host.hash(content)| == 64 && host.isHex(host.hash(content))
  {
  }

  lemma ItemChecks(host: Host, path: string, kind: string, content: Octets)
    requires StrictMember(path) == Some(path) && KindMatches(path, PyStr(kind))
    requires |host.hash(content)| == 64 && host.isHex(host.hash(content))
    ensures CheckEntry(host, EntryValue(EntryOf(host, path, kind, content))) == Some(EntryOf(host, path, kind, content))
  {
  }

  lemma EntryChecks(host: Host, f: Found)
    requires SoundHost(host) && GoodPath(f.path) && f.path != ["manifest.json"]
    requires Clean(f.path)
    ensures CheckEntry(host, EntryValue(ListedEntry(host, f))) == Some(ListedEntry(host, f))
  {
    GoodIsValid(f.path);
    HashChecks(host, f.content);
    hide Join, KindMatches, StrictMember, ListedKind, SoundHost, Clean, GoodPath, CheckEntry, EntryValue, EntryOf;
    StrictJoin(f.path);
    KindMatchesPath(f.path);
    ItemChecks(host, Join(f.path), ListedKind(f.path), f.content);
  }

  lemma {:induction false} EntriesParse(host: Host, files: seq<Found>, n: nat)
    requires SoundHost(host) && GoodFiles(files) && NoBackslash(files) && n <= |files|
    requires forall i :: 0 <= i < |files| ==> files[i].path != ["manifest.json"]
    ensures ParseEntries(host, EntryValues(ListedEntries(host, files))[..n]) == Some(ListedEntries(host, files)[..n])
    decreases n
  {
    hide CheckEntry, Join, PathsOf, SoundHost, Clean, GoodPath, NoBackslash, GoodFiles, ListedEntry, EntryValue,
      ParseEntries, EntryValues, ListedEntries;
    var entries := ListedEntries(host, files);
    if n == 0 {
      NothingToParse(host, files);
    } else {
      EntriesParse(host, files, n - 1);
      ValueAt(host, files, n - 1);
      EntryChecks(host, files[n - 1]);
      ParseStep(host, EntryValues(entries), n - 1);
      NewPath(host, files, n - 1);
      assert n - 1 + 1 == n;
    }
  }

  lemma NothingToParse(host: Host, files: seq<Found>)
    ensures var entries := ListedEntries(host, files);
      ParseEntries(host, EntryValues(entries)[..0]) == Some(entries[..0])
  {
  }

  lemma ValueAt(host: Host, files: seq<Found>, n: nat)
    requires n < |files| && GoodFiles(files) && NoBackslash(files)
    ensures GoodPath(files[n].path) && Clean(files[n].path)
    ensures var entries := ListedEntries(host, files);
      && |EntryValues(entries)| == |entries| == |files|
      && EntryValues(entries)[n] == EntryValue(ListedEntry(host, files[n]))
      && entries[..n + 1] == entries[..n] + [ListedEntry(host, files[n])]
  {
  }

  lemma NewPath(host: Host, files: seq<Found>, n: nat)
    requires GoodFiles(files) && n < |files|
    ensures ListedEntry(host, files[n]).path !in PathsOf(ListedEntries(host, files)[..n])
  {
    hide Join;
    forall i | 0 <= i < n
      ensures ListedEntry(host, files[i]).path != ListedEntry(host, files[n]).path
    {
      ApartTexts(files, i, n);
    }
  }

  lemma ManifestParses(host: Host, header: Header, dump: Octets, found: seq<Found>)
    requires SoundHost(host) && ValidHeaderTexts(host, header) && GoodFound(found)
    requires NoBackslash(ListedFiles(dump, found)) && |ManifestBytes(host, header, dump, found)| <= MAX_MANIFEST_BYTES
    ensures ParseManifest(host, ManifestBytes(host, header, dump, found))
      == Some(ListedEntries(host, ListedFiles(dump, found)))
  {
    hide ParseEntries, EntryValue, ListedEntry, GoodFiles, NoBackslash, MediaFile, EntryOf, MemberName;
    var files := ListedFiles(dump, found);
    var entries := ListedEntries(host, files);
    ArchiveFiles(host, dump, found, []);
    AllFilesGood(dump, found, []);
    NotTheManifest(dump, found);
    EntriesParse(host, files, |files|);
    assert EntryValues(entries)[..|files|] == EntryValues(entries) && entries[..|files|] == entries;
    DumpListed(host, dump, found);
  }

  // A blank or unreadable text around the list of files makes the restore refuse the manifest.
  lemma ManifestRefused(host: Host, header: Header, dump: Octets, found: seq<Found>)
    requires SoundHost(host) && !ValidHeaderTexts(host, header)
    ensures ParseManifest(host, ManifestBytes(host, header, dump, found)).None?
  {
    hide ParseEntries, ManifestEntries, EntryValues;
    var value := ManifestValue(header, ManifestEntries(host, dump, found));
    assert !ValidHeader(host, value);
  }

  lemma NotTheManifest(dump: Octets, found: seq<Found>)
    ensures forall i :: 0 <= i < |ListedFiles(dump, found)| ==> ListedFiles(dump, found)[i].path != ["manifest.json"]
  {
    forall i | 0 <= i < |ListedFiles(dump, found)|
      ensures ListedFiles(dump, found)[i].path != ["manifest.json"]
    {
      assert ListedFiles(dump, found)[i].path[0] != "manifest.json";
    }
  }

  lemma DumpListed(host: Host, dump: Octets, found: seq<Found>)
    ensures "database.dump" in PathsOf(ListedEntries(host, ListedFiles(dump, found)))
  {
    var entries := ListedEntries(host, ListedFiles(dump, found));
    assert entries[0].path == "database.dump";
  }

  // ---------- Contents ----------

  lemma ContentChecks(host: Host, files: seq<Found>, i: nat)
    requires GoodFiles(files) && i < |files| && |files[i].content| <= MAX_MEMBER_BYTES
    ensures CheckContent(host, Members(files), ListedEntry(host, files[i])) == Some(|files[i].content|)
  {
    InfoOf(files, i);
  }

  lemma TotalStep(files: seq<Found>, n: nat)
    requires n < |files|
    ensures TotalSize(files[..n + 1]) == TotalSize(files[..n]) + |files[n].content|
  {
    assert files[..n + 1][..n] == files[..n];
  }

  lemma CheckStep(host: Host, zip: seq<Member>, entries: seq<Entry>, start: nat, n: nat, before: nat, size: nat)
    requires n < |entries| && before + size <= MAX_ARCHIVE_BYTES
    requires CheckContents(host, zip, entries[..n], start) == Some(before)
      && CheckContent(host, zip, entries[n]) == Some(size)
    ensures CheckContents(host, zip, entries[..n + 1], start) == Some(before + size)
  {
    hide CheckContent;
    assert entries[..n + 1][..n] == entries[..n];
  }

  lemma {:induction false} ContentsCheck(host: Host, files: seq<Found>, start: nat, n: nat)
    requires GoodFiles(files) && MembersFit(files) && n <= |files| && start + TotalSize(files[..n]) <= MAX_ARCHIVE_BYTES
    ensures CheckContents(host, Members(files), ListedEntries(host, files)[..n], start)
      == Some(start + TotalSize(files[..n]))
    decreases n
  {
    hide Members, ListedEntry, ListedEntries, CheckContent, CheckContents, GoodFiles, MembersFit, TotalSize;
    if n == 0 {
      NothingToCheck(host, Members(files), files, start);
    } else {
      var f := files[n - 1];
      TotalStep(files, n - 1);
      ContentsCheck(host, files, start, n - 1);
      MemberFits(host, files, n - 1);
      ContentChecks(host, files, n - 1);
      CheckStep(host, Members(files), ListedEntries(host, files), start, n - 1, start + TotalSize(files[..n - 1]),
        |f.content|);
      assert n - 1 + 1 == n;
    }
  }

  lemma NothingToCheck(host: Host, zip: seq<Member>, files: seq<Found>, start: nat)
    ensures CheckContents(host, zip, ListedEntries(host, files)[..0], start) == Some(start)
      && TotalSize(files[..0]) == 0
  {
  }

  lemma MemberFits(host: Host, files: seq<Found>, n: nat)
    requires MembersFit(files) && n < |files|
    ensures |files[n].content| <= MAX_MEMBER_BYTES
    ensures |ListedEntries(host, files)| == |files| && ListedEntries(host, files)[n] == ListedEntry(host, files[n])
  {
  }

  lemma ArchiveContentsCheck(host: Host, dump: Octets, found: seq<Found>, manifest: Octets)
    requires GoodFound(found) && Fits(dump, found, manifest)
    ensures CheckContents(host, Members(AllFiles(dump, found, manifest)),
      ListedEntries(host, ListedFiles(dump, found)), |manifest|).Some?
  {
    var all, files := AllFiles(dump, found, manifest), ListedFiles(dump, found);
    var n := |files|;
    AllFilesGood(dump, found, manifest);
    assert all[..n] == files && all[..n + 1] == all && all[n].content == manifest;
    assert ListedEntries(host, all)[..n] == ListedEntries(host, files);
    assert n < |all| && MembersFit(all) && TotalSize(all[..n + 1]) <= MAX_ARCHIVE_BYTES;
    TotalStep(all, n);
    assert |manifest| + TotalSize(all[..n]) <= MAX_ARCHIVE_BYTES;
    hide GoodFiles, TotalSize, MembersFit, Fits, AllFiles, ListedFiles;
    ContentsCheck(host, all, |manifest|, n);
  }

  // ---------- Validation ----------

  lemma NamesMatch(host: Host, dump: Octets, found: seq<Found>, manifest: Octets)
    requires GoodFound(found)
    ensures var all := AllFiles(dump, found, manifest);
      && |PathTexts(all)| == |Names(PathTexts(all))|
      && "manifest.json" in PathTexts(all)
      && Names(PathTexts(all)) == PathsOf(ListedEntries(host, ListedFiles(dump, found))) + {"manifest.json"}
  {
    var all, files := AllFiles(dump, found, manifest), ListedFiles(dump, found);
    AllFilesGood(dump, found, manifest);
    JoinOne("manifest.json");
    hide Join, GoodFiles, GoodFound;
    var texts, entries := PathTexts(all), ListedEntries(host, files);
    forall i, j | 0 <= i < j < |texts|
      ensures texts[i] != texts[j]
    {
      ApartTexts(all, i, j);
    }
    DistinctCount(texts);
    assert texts[|all| - 1] == "manifest.json";
    forall i | 0 <= i < |files|
      ensures texts[i] == entries[i].path
    {
      assert all[i] == files[i];
    }
    forall name | name in PathsOf(entries)
      ensures name in Names(texts)
    {
      var i :| 0 <= i < |entries| && entries[i].path == name;
      assert texts[i] == name;
    }
  }

  lemma ManifestRead(dump: Octets, found: seq<Found>, manifest: Octets)
    requires GoodFound(found)
    ensures ReadManifest(Members(AllFiles(dump, found, manifest)))
      == if |manifest| > MAX_MANIFEST_BYTES then None else Some(manifest)
  {
  }

  lemma FilesGood(files: seq<Found>)
    requires GoodFiles(files)
    ensures forall i :: 0 <= i < |files| ==> GoodPath(files[i].path)
  {
  }

  lemma ListedClean(dump: Octets, found: seq<Found>, manifest: Octets)
    requires NoBackslash(AllFiles(dump, found, manifest))
    ensures NoBackslash(ListedFiles(dump, found))
  {
    hide Clean;
    var all, files := AllFiles(dump, found, manifest), ListedFiles(dump, found);
    assert forall i :: 0 <= i < |files| ==> all[i] == files[i];
  }

  /** A fresh archive is accepted exactly when its texts are not blank and it fits: no backslash in a
      name, no member over one GiB, ten GiB in all, and a manifest of at most one MiB. */
  lemma AcceptedExactly(host: Host, header: Header, dump: Octets, found: seq<Found>)
    requires SoundHost(host) && GoodFound(found)
    ensures var manifest := ManifestBytes(host, header, dump, found);
      ValidateZip(host, ArchiveOf(dump, found, manifest))
      == if ValidHeaderTexts(host, header) && Fits(dump, found, manifest)
         then Some(ListedEntries(host, ListedFiles(dump, found))) else None
  {
    var manifest := ManifestBytes(host, header, dump, found);
    var all := AllFiles(dump, found, manifest);
    AllFilesGood(dump, found, manifest);
    FilesGood(all);
    var fits := Fits(dump, found, manifest);
    assert fits ==>
      NoBackslash(all) && MembersFit(all) && TotalSize(all) <= MAX_ARCHIVE_BYTES && |manifest| <= MAX_MANIFEST_BYTES;
    ArchiveFiles(host, dump, found, manifest);
    hide AllFiles, ListedFiles, Members, GoodFiles, GoodPath, NoBackslash, MembersFit, TotalSize, SoundHost,
      ManifestBytes, ArchiveOf, ListedEntries, PathTexts, Names, PathsOf, CheckedNames, DeclaredTotal, ReadManifest,
      ParseManifest, CheckContents, ValidHeaderTexts, GoodFound, ManifestEntries;
    CheckedNamesAre(all);
    DeclaredIs(all);
    NamesMatch(host, dump, found, manifest);
    ManifestRead(dump, found, manifest);
    if !ValidHeaderTexts(host, header) {
      ManifestRefused(host, header, dump, found);
    } else if fits {
      ListedClean(dump, found, manifest);
      ManifestParses(host, header, dump, found);
      ArchiveContentsCheck(host, dump, found, manifest);
    }
  }

  // ---------- Unpacking ----------

  // The paths below which the files of the first `n` entries lie, and the directories made at first.
  ghost predicate DirsExpected(t: Tree, files: seq<Found>, n: nat) {
    n <= |files| && forall d :: d in t.dirs ==>
      d in EMPTY_STAGE.dirs || exists i :: 0 <= i < n && d in ParentsOf(files[i].path)
  }

  ghost predicate FilesExpected(t: Tree, files: seq<Found>, n: nat) {
    && n <= |files|
    && (forall i :: 0 <= i < n ==> files[i].path in t.files && t.files[files[i].path] == files[i].content)
    && (forall p :: p in t.files ==> exists i :: 0 <= i < n && files[i].path == p)
  }

  lemma FilesApart(files: seq<Found>, i: nat, j: nat)
    requires GoodFiles(files) && i < |files| && j < |files| && i != j
    ensures files[i].path != files[j].path && files[i].path !in ParentsOf(files[j].path)
  {
  }

  lemma NotAFirstDirectory(p: Path)
    requires GoodPath(p)
    ensures p !in EMPTY_STAGE.dirs
  {
  }

  // Unpacking one more file meets no obstacle.
  lemma NoObstacle(t: Tree, files: seq<Found>, n: nat)
    requires GoodFiles(files) && n < |files|
    requires DirsExpected(t, files, n) && FilesExpected(t, files, n)
    ensures files[n].path !in t.files && files[n].path !in t.dirs + ParentsOf(files[n].path)
    ensures forall d :: d in ParentsOf(files[n].path) ==> d !in t.files
  {
    var p := files[n].path;
    assert GoodPath(p);
    NotAFirstDirectory(p);
    assert p !in ParentsOf(p);
    forall i | 0 <= i < n
      ensures files[i].path != p && files[i].path !in ParentsOf(p) && p !in ParentsOf(files[i].path)
    {
      FilesApart(files, i, n);
      FilesApart(files, n, i);
    }
  }

  lemma ExtractStep(host: Host, files: seq<Found>, zip: seq<Member>, t: Tree, n: nat)
    requires GoodFiles(files) && n < |files|
    requires GetInfo(zip, Join(files[n].path)) == Some(MemberOf(files[n]))
    requires DirsExpected(t, files, n) && FilesExpected(t, files, n)
    ensures var next := ExtractOne(t, zip, ListedEntry(host, files[n]));
      next.Some? && DirsExpected(next.value, files, n + 1) && FilesExpected(next.value, files, n + 1)
  {
    var f := files[n];
    assert GoodPath(f.path);
    PartsJoin(f.path);
    hide Join, Parts, GetInfo, ParentsOf, GoodFiles, GoodPath;
    NoObstacle(t, files, n);
    var next := ExtractOne(t, zip, ListedEntry(host, f));
    assert next == Some(Tree(t.dirs + ParentsOf(f.path), t.files[f.path := f.content]));
    GrownDirs(t, next.value, files, n);
    GrownFiles(t, next.value, files, n);
  }

  lemma GrownDirs(t: Tree, t': Tree, files: seq<Found>, n: nat)
    requires n < |files| && DirsExpected(t, files, n) && t'.dirs == t.dirs + ParentsOf(files[n].path)
    ensures DirsExpected(t', files, n + 1)
  {
  }

  lemma GrownFiles(t: Tree, t': Tree, files: seq<Found>, n: nat)
    requires n < |files| && FilesExpected(t, files, n) && files[n].path !in t.files
    requires t'.files == t.files[files[n].path := files[n].content]
    ensures FilesExpected(t', files, n + 1)
  {
  }

  lemma {:induction false} ExtractAll(host: Host, files: seq<Found>, zip: seq<Member>, n: nat)
    requires GoodFiles(files) && n <= |files|
    requires forall i :: 0 <= i < |files| ==> GetInfo(zip, Join(files[i].path)) == Some(MemberOf(files[i]))
    ensures var t := Extract(zip, ListedEntries(host, files)[..n]);
      t.Some? && DirsExpected(t.value, files, n) && FilesExpected(t.value, files, n)
    decreases n
  {
    hide ExtractOne, DirsExpected, FilesExpected, Join, GoodFiles, ListedEntry, ListedEntries, Extract, MemberOf;
    if n == 0 {
      NothingUnpacked(host, files, zip);
    } else {
      ExtractAll(host, files, zip, n - 1);
      var t := Extract(zip, ListedEntries(host, files)[..n - 1]).value;
      ExtractStep(host, files, zip, t, n - 1);
      UnpackNext(host, files, zip, t, n - 1);
      assert n - 1 + 1 == n;
    }
  }

  lemma NothingUnpacked(host: Host, files: seq<Found>, zip: seq<Member>)
    ensures Extract(zip, ListedEntries(host, files)[..0]) == Some(EMPTY_STAGE)
    ensures DirsExpected(EMPTY_STAGE, files, 0) && FilesExpected(EMPTY_STAGE, files, 0)
  {
  }

  lemma UnpackNext(host: Host, files: seq<Found>, zip: seq<Member>, t: Tree, n: nat)
    requires n < |files| && Extract(zip, ListedEntries(host, files)[..n]) == Some(t)
    ensures Extract(zip, ListedEntries(host, files)[..n + 1]) == ExtractOne(t, zip, ListedEntry(host, files[n]))
  {
    hide ExtractOne;
    var entries := ListedEntries(host, files);
    assert entries[..n + 1][..n] == entries[..n];
  }

  // ---------- The round trip ----------

  /** The file a media root holds at a path below `objects` or `thumbnails`. */
  ghost predicate HasMedia(root: Node, p: Path, content: Octets) {
    && root.Directory? && |p| >= 2 && (p[0] == "objects" || p[0] == "thumbnails")
    && HasFile(root.children, p, content)
  }

  // One of the two directories: missing, or a tree of well-named regular files.
  ghost predicate GoodKind(root: Listing, kind: string) {
    match ChildOf(root, kind)
    case None => true
    case Some(Directory(children)) => WellNamed(children) && Regular(children)
    case _ => false
  }

  ghost predicate GoodRoot(root: Node) {
    && root.Directory?
    && (forall i, j :: 0 <= i < j < |root.children| ==> root.children[i].name != root.children[j].name)
    && GoodKind(root.children, "objects") && GoodKind(root.children, "thumbnails")
  }

  lemma {:induction false} ChildIs(children: Listing, name: string)
    requires forall i, j :: 0 <= i < j < |children| ==> children[i].name != children[j].name
    ensures forall i :: 0 <= i < |children| && children[i].name == name ==>
      ChildOf(children, name) == Some(children[i].node)
    ensures ChildOf(children, name).Some? ==>
      exists i :: 0 <= i < |children| && children[i] == Child(name, ChildOf(children, name).value)
  {
    if children != [] {
      var rest := children[1..];
      ChildIs(rest, name);
      forall i | 0 <= i < |children| && children[i].name == name
        ensures ChildOf(children, name) == Some(children[i].node)
      {
        if i > 0 { assert rest[i - 1] == children[i]; }
      }
      if ChildOf(children, name).Some? {
        if children[0].name == name {
          assert children[0] == Child(name, children[0].node);
        } else {
          var i :| 0 <= i < |rest| && rest[i] == Child(name, ChildOf(rest, name).value);
          assert children[i + 1] == rest[i];
        }
      }
    }
  }

  lemma KindFiles(root: Listing, kind: string, p: Path, content: Octets)
    requires forall i, j :: 0 <= i < j < |root| ==> root[i].name != root[j].name
    requires |p| >= 2 && p[0] == kind
    ensures HasFile(root, p, content) <==>
      && ChildOf(root, kind).Some? && ChildOf(root, kind).value.Directory?
      && HasFile(ChildOf(root, kind).value.children, p[1..], content)
  {
    ChildIs(root, kind);
  }

  lemma KindCollected(root: Listing, kind: string)
    requires forall i, j :: 0 <= i < j < |root| ==> root[i].name != root[j].name
    requires GoodKind(root, kind) && ValidName(kind)
    ensures CollectKind(root, kind).Some?
    ensures var found := CollectKind(root, kind).value;
      && AllApart(found) && AllBelow(found, [kind])
      && (forall f: Found :: f in found <==> |f.path| >= 2 && f.path[0] == kind && HasFile(root, f.path, f.content))
  {
    var child := ChildOf(root, kind);
    if child.Some? {
      var children := child.value.children;
      CollectFinds(children, [kind]);
      CollectApart(children, [kind]);
    }
    var found := CollectKind(root, kind).value;
    forall f: Found
      ensures f in found <==> |f.path| >= 2 && f.path[0] == kind && HasFile(root, f.path, f.content)
    {
      if |f.path| >= 2 && f.path[0] == kind { KindFiles(root, kind, f.path, f.content); }
      if f in found {
        var i :| 0 <= i < |found| && found[i] == f;
        assert [kind] <= f.path && |f.path| > 1;
      }
      assert [kind] <= f.path <==> f.path != [] && f.path[0] == kind;
    }
  }

  /** Collecting a good media root finds exactly its files, none of them twice or below another. */
  lemma MediaCollected(root: Node)
    requires GoodRoot(root)
    ensures CollectMedia(root).Some? && GoodFound(CollectMedia(root).value)
    ensures forall f: Found :: f in CollectMedia(root).value <==> HasMedia(root, f.path, f.content)
  {
    hide HasFile, CollectKind, GoodKind, Apart;
    KindCollected(root.children, "objects");
    KindCollected(root.children, "thumbnails");
    var objects := CollectKind(root.children, "objects").value;
    var thumbnails := CollectKind(root.children, "thumbnails").value;
    forall i, j | 0 <= i < |objects| && 0 <= j < |thumbnails|
      ensures Apart(objects[i].path, thumbnails[j].path)
    {
      assert objects[i].path[0] == ["objects"][0] && thumbnails[j].path[0] == ["thumbnails"][0];
      ApartByFirst(objects[i].path, thumbnails[j].path);
    }
    ApartConcat(objects, thumbnails);
    var found := objects + thumbnails;
    forall i | 0 <= i < |found|
      ensures ValidPath(found[i].path) && |found[i].path| >= 2
        && (found[i].path[0] == "objects" || found[i].path[0] == "thumbnails")
    {
      assert i < |objects| ==> found[i] in objects;
      assert i >= |objects| ==> found[i] in thumbnails;
    }
  }

  // Names as a file system gives them, below the root and its two directories.
  ghost predicate NamedRoot(root: Node) {
    root.Directory? ==>
      && (forall i, j :: 0 <= i < j < |root.children| ==> root.children[i].name != root.children[j].name)
      && NamedKind(root.children, "objects") && NamedKind(root.children, "thumbnails")
  }

  ghost predicate NamedKind(root: Listing, kind: string) {
    var child := ChildOf(root, kind);
    child.Some? && child.value.Directory? ==> WellNamed(child.value.children)
  }

  lemma KindCollects(root: Listing, kind: string)
    requires NamedKind(root, kind) && ValidName(kind)
    ensures CollectKind(root, kind).Some? <==> GoodKind(root, kind)
  {
    var child := ChildOf(root, kind);
    if child.Some? && child.value.Directory? { CollectsExactlyRegular(child.value.children, [kind]); }
  }

  /** A backup is written exactly when the root is a directory and its two kinds are missing or hold
      nothing but directories and regular files. */
  lemma BackupWrittenExactly(host: Host, header: Header, dump: Octets, root: Node)
    requires NamedRoot(root)
    ensures CreateBackup(host, header, dump, root).Some? <==> GoodRoot(root)
  {
    hide CollectKind, GoodKind, ArchiveOf, ManifestBytes;
    if root.Directory? {
      KindCollects(root.children, "objects");
      KindCollects(root.children, "thumbnails");
    }
  }

  lemma UnpackListed(host: Host, dump: Octets, found: seq<Found>, manifest: Octets)
    requires GoodFound(found)
    ensures var t := Extract(Members(AllFiles(dump, found, manifest)), ListedEntries(host, ListedFiles(dump, found)));
      t.Some? && FilesExpected(t.value, ListedFiles(dump, found), |found| + 1)
  {
    var all, files := AllFiles(dump, found, manifest), ListedFiles(dump, found);
    AllFilesGood(dump, found, manifest);
    assert forall i :: 0 <= i < |files| ==> files[i] == all[i];
    assert ListedEntries(host, files)[..|files|] == ListedEntries(host, files);
    hide GoodFiles, Join, DirsExpected, FilesExpected, Members, ListedEntries, GetInfo;
    forall i | 0 <= i < |files|
      ensures GetInfo(Members(all), Join(files[i].path)) == Some(MemberOf(files[i]))
    {
      InfoOf(all, i);
    }
    ExtractAll(host, files, Members(all), |files|);
  }

  /** The staging directory holds this content at this path exactly when it is the dump, or the
      media root held it there. */
  ghost predicate RestoredAt(root: Node, dump: Octets, t: Tree, p: Path, content: Octets) {
    (p in t.files && t.files[p] == content) <==>
    (p == ["database.dump"] && content == dump) || (p != [] && p[0] == "media" && HasMedia(root, p[1..], content))
  }

  lemma UnpackedFiles(root: Node, dump: Octets, found: seq<Found>, t: Tree, p: Path, content: Octets)
    requires FilesExpected(t, ListedFiles(dump, found), |found| + 1)
    requires forall f: Found :: f in found <==> HasMedia(root, f.path, f.content)
    ensures RestoredAt(root, dump, t, p, content)
  {
    hide HasMedia;
    var files := ListedFiles(dump, found);
    if p in t.files && t.files[p] == content {
      var i :| 0 <= i < |found| + 1 && files[i].path == p;
      if i > 0 {
        assert found[i - 1] in found;
        assert p[1..] == found[i - 1].path;
      }
    }
    if p == ["database.dump"] && content == dump { assert files[0].path == p; }
    if p != [] && p[0] == "media" && HasMedia(root, p[1..], content) {
      assert Found(p[1..], content) in found;
      var i :| 0 <= i < |found| && found[i] == Found(p[1..], content);
      assert p == ["media"] + p[1..];
      assert files[i + 1] == MediaFile(found[i]);
    }
  }

  /** Backup then restore is the identity on the media: a good media root is backed up, the archive is
      accepted exactly when its texts are not blank and it fits the restore's limits, and unpacking it
      then gives exactly the dump and the files of the media root. */
  lemma BackupThenRestore(host: Host, header: Header, dump: Octets, root: Node) returns (zip: seq<Member>)
    requires SoundHost(host) && GoodRoot(root)
    ensures CreateBackup(host, header, dump, root) == Some(zip) && CollectMedia(root).Some?
    ensures var found := CollectMedia(root).value;
      ValidateZip(host, zip).Some? <==>
      ValidHeaderTexts(host, header) && Fits(dump, found, ManifestBytes(host, header, dump, found))
    ensures ValidateZip(host, zip).Some? ==>
      var t := Extract(zip, ValidateZip(host, zip).value);
      t.Some? && forall p, content :: RestoredAt(root, dump, t.value, p, content)
  {
    hide CollectMedia, GoodFound, Fits, ManifestBytes, SoundHost, ValidHeaderTexts, GoodRoot, HasMedia, RestoredAt,
      ArchiveOf, ValidateZip, Extract, Members, AllFiles, ListedFiles, ListedEntries, FilesExpected;
    MediaCollected(root);
    var found := CollectMedia(root).value;
    var manifest := ManifestBytes(host, header, dump, found);
    zip := ArchiveOf(dump, found, manifest);
    AcceptedExactly(host, header, dump, found);
    ArchiveFiles(host, dump, found, manifest);
    UnpackListed(host, dump, found, manifest);
    if ValidateZip(host, zip).Some? {
      var t := Extract(zip, ValidateZip(host, zip).value).value;
      forall p, content
        ensures RestoredAt(root, dump, t, p, content)
      {
        UnpackedFiles(root, dump, found, t, p, content);
      }
    }
  }
}
