/** Validating a backup archive and unpacking its files into a staging directory. */
module MediaRestore {
  import opened Wrappers
  import opened Bytes
  import opened Paths
  import opened BackupArchive

  // ---------- The manifest ----------

  // A member name of the archive: no backslash either.
  function StrictMember(name: string): Option<string> {
    if '\\' in name then None else SafeMember(name)
  }

  predicate KindMatches(path: string, kind: Py) {
    if path == "database.dump" then kind == PyStr("database")
    else if "media/objects/" <= path then kind == PyStr("objects")
    else "media/thumbnails/" <= path && kind == PyStr("thumbnails")
  }

  function CheckEntry(host: Host, item: Py): Option<Entry> {
    if !item.PyDict? || item.entries.Keys != {"path", "kind", "size", "sha256"} then None
    else
      var path, kind := item.entries["path"], item.entries["kind"];
      var size, digest := item.entries["size"], item.entries["sha256"];
      if !path.PyStr? || StrictMember(path.s).None? then None
      else
        var member := StrictMember(path.s).value;
        if !KindMatches(member, kind) || !kind.PyStr? || !size.PyInt? || size.n < 0
           || !digest.PyStr? || |digest.s| != 64 || !host.isHex(digest.s)
        then None
        else Some(Entry(member, kind.s, size.n, digest.s))
  }

  function PathsOf(entries: seq<Entry>): set<string> {
    set i | 0 <= i < |entries| :: entries[i].path
  }

  function ParseEntries(host: Host, items: seq<Py>): Option<seq<Entry>> {
    if items == [] then Some([])
    else
      match (ParseEntries(host, items[..|items| - 1]), CheckEntry(host, items[|items| - 1]))
      case (Some(entries), Some(entry)) => if entry.path in PathsOf(entries) then None else Some(entries + [entry])
      case _ => None
  }

  predicate NonBlank(host: Host, v: Py) { v.PyStr? && !host.isBlank(v.s) }

  // The fields around the list of files.
  predicate ValidHeader(host: Host, value: Py) {
    && value.PyDict?
    && value.entries.Keys ==
       {"schema_version", "application_revision", "created_at", "file_count", "expected_restore_procedure", "files"}
    && NonBlank(host, value.entries["schema_version"])
    && NonBlank(host, value.entries["application_revision"])
    && value.entries["created_at"].PyStr? && host.isUtc(value.entries["created_at"].s)
    && NonBlank(host, value.entries["expected_restore_procedure"])
    && value.entries["files"].PyList? && value.entries["files"].items != []
    && value.entries["file_count"] == PyInt(|value.entries["files"].items|)
  }

  function ParseManifest(host: Host, raw: Octets): Option<seq<Entry>> {
    if |raw| > MAX_MANIFEST_BYTES then None
    else
      match host.load(raw)
      case None => None
      case Some(value) =>
        if !ValidHeader(host, value) then None
        else
          match ParseEntries(host, value.entries["files"].items)
          case None => None
          case Some(entries) => if "database.dump" in PathsOf(entries) then Some(entries) else None
  }

  lemma PathsGrow(entries: seq<Entry>, entry: Entry)
    ensures PathsOf(entries + [entry]) == PathsOf(entries) + {entry.path}
  {
    var more := entries + [entry];
    assert more[|entries|] == entry;
    assert forall i :: 0 <= i < |entries| ==> more[i] == entries[i];
  }

  lemma ParseStep(host: Host, items: seq<Py>, i: nat)
    requires i < |items| && ParseEntries(host, items[..i]).Some?
    ensures var entries, entry := ParseEntries(host, items[..i]).value, CheckEntry(host, items[i]);
      ParseEntries(host, items[..i + 1]) ==
        if entry.None? || entry.value.path in PathsOf(entries) then None else Some(entries + [entry.value])
  {
    hide CheckEntry, PathsOf;
    assert items[..i + 1][..i] == items[..i];
  }

  method ParseManifestFiles(host: Host, items: seq<Py>) returns (entries: Option<seq<Entry>>)
    ensures entries == ParseEntries(host, items)
  {
    var parsed: seq<Entry>, seen: set<string> := [], {};
    for i := 0 to |items|
      invariant ParseEntries(host, items[..i]) == Some(parsed)
      invariant seen == PathsOf(parsed)
    {
      hide CheckEntry, PathsOf, ParseEntries;
      var entry := CheckEntry(host, items[i]);
      ParseStep(host, items, i);
      if entry.None? || entry.value.path in seen {
        ParseStops(host, items, i + 1);
        return None;
      }
      PathsGrow(parsed, entry.value);
      seen := seen + {entry.value.path};
      parsed := parsed + [entry.value];
    }
    assert items[..|items|] == items;
    return Some(parsed);
  }

  lemma {:induction false} ParseStops(host: Host, items: seq<Py>, k: nat)
    requires k <= |items| && ParseEntries(host, items[..k]).None?
    ensures ParseEntries(host, items).None?
    decreases |items|
  {
    hide CheckEntry;
    if k == |items| {
      assert items[..k] == items;
    } else {
      assert items[..|items| - 1][..k] == items[..k];
      ParseStops(host, items[..|items| - 1], k);
    }
  }

  // ---------- The members ----------

  function CheckedName(info: Member): Option<string> {
    match StrictMember(info.filename)
    case None => None
    case Some(name) =>
      if info.notRegular || (name != "" && name[|name| - 1] == '/') || info.fileSize > MAX_MEMBER_BYTES then None
      else Some(name)
  }

  function CheckedNames(zip: seq<Member>): Option<seq<string>> {
    if zip == [] then Some([])
    else
      match (CheckedNames(zip[..|zip| - 1]), CheckedName(zip[|zip| - 1]))
      case (Some(names), Some(name)) => Some(names + [name])
      case _ => None
  }

  function DeclaredTotal(zip: seq<Member>): nat {
    if zip == [] then 0 else DeclaredTotal(zip[..|zip| - 1]) + zip[|zip| - 1].fileSize
  }

  function Names(names: seq<string>): set<string> {
    set i | 0 <= i < |names| :: names[i]
  }

  // The size of one file, when its member is what the manifest says.
  function CheckContent(host: Host, zip: seq<Member>, entry: Entry): Option<nat> {
    match GetInfo(zip, entry.path)
    case None => None
    case Some(info) =>
      if info.fileSize != entry.size || info.content.None? then None
      else
        var content := info.content.value;
        if |content| > MAX_MEMBER_BYTES || |content| != entry.size || host.hash(content) != entry.sha256 then None
        else Some(|content|)
  }

  // The bytes read so far, as long as they fit the archive limit.
  function CheckContents(host: Host, zip: seq<Member>, entries: seq<Entry>, start: nat): Option<nat> {
    if entries == [] then Some(start)
    else
      match (CheckContents(host, zip, entries[..|entries| - 1], start), CheckContent(host, zip, entries[|entries| - 1]))
      case (Some(total), Some(size)) => if total + size > MAX_ARCHIVE_BYTES then None else Some(total + size)
      case _ => None
  }

  function ReadManifest(zip: seq<Member>): Option<Octets> {
    match GetInfo(zip, "manifest.json")
    case None => None
    case Some(info) =>
      if info.fileSize > MAX_MANIFEST_BYTES || info.content.None? || |info.content.value| != info.fileSize then None
      else info.content
  }

  function ValidateZip(host: Host, zip: seq<Member>): Option<seq<Entry>> {
    match CheckedNames(zip)
    case None => None
    case Some(names) =>
      if DeclaredTotal(zip) > MAX_ARCHIVE_BYTES || |names| != |Names(names)| || "manifest.json" !in names then None
      else
        match ReadManifest(zip)
        case None => None
        case Some(raw) =>
          match ParseManifest(host, raw)
          case None => None
          case Some(entries) =>
            if Names(names) != PathsOf(entries) + {"manifest.json"}
              || CheckContents(host, zip, entries, |raw|).None? then None
            else Some(entries)
  }

  // Reads the members the manifest names, adding up their sizes.
  method VerifyContents(host: Host, zip: seq<Member>, entries: seq<Entry>, start: nat) returns (total: Option<nat>)
    ensures total == CheckContents(host, zip, entries, start)
  {
    var actualTotal := start;
    for i := 0 to |entries|
      invariant CheckContents(host, zip, entries[..i], start) == Some(actualTotal)
    {
      hide CheckContent;
      assert entries[..i + 1][..i] == entries[..i];
      var size := CheckContent(host, zip, entries[i]);
      if size.None? || actualTotal + size.value > MAX_ARCHIVE_BYTES {
        ContentsStop(host, zip, entries, i + 1, start);
        return None;
      }
      actualTotal := actualTotal + size.value;
    }
    assert entries[..|entries|] == entries;
    return Some(actualTotal);
  }

  lemma {:induction false} ContentsStop(host: Host, zip: seq<Member>, entries: seq<Entry>, k: nat, start: nat)
    requires k <= |entries| && CheckContents(host, zip, entries[..k], start).None?
    ensures CheckContents(host, zip, entries, start).None?
    decreases |entries|
  {
    hide CheckContent;
    if k == |entries| {
      assert entries[..k] == entries;
    } else {
      assert entries[..|entries| - 1][..k] == entries[..k];
      ContentsStop(host, zip, entries[..|entries| - 1], k, start);
    }
  }

  lemma {:induction false} NamesStop(zip: seq<Member>, k: nat)
    requires k <= |zip| && CheckedNames(zip[..k]).None?
    ensures CheckedNames(zip).None?
    decreases |zip|
  {
    hide CheckedName;
    if k == |zip| {
      assert zip[..k] == zip;
    } else {
      assert zip[..|zip| - 1][..k] == zip[..k];
      NamesStop(zip[..|zip| - 1], k);
    }
  }

  method ValidateArchive(host: Host, zip: seq<Member>) returns (entries: Option<seq<Entry>>)
    ensures entries == ValidateZip(host, zip)
  {
    hide CheckContents, ParseEntries, ValidHeader, CheckedName;
    var names: seq<string>, declaredTotal := [], 0;
    for i := 0 to |zip|
      invariant CheckedNames(zip[..i]) == Some(names) && declaredTotal == DeclaredTotal(zip[..i])
    {
      assert zip[..i + 1][..i] == zip[..i];
      var name := CheckedName(zip[i]);
      if name.None? {
        NamesStop(zip, i + 1);
        return None;
      }
      declaredTotal := declaredTotal + zip[i].fileSize;
      names := names + [name.value];
    }
    assert zip[..|zip|] == zip;
    if declaredTotal > MAX_ARCHIVE_BYTES || |names| != |Names(names)| || "manifest.json" !in names { return None; }
    var raw := ReadManifest(zip);
    if raw.None? || |raw.value| > MAX_MANIFEST_BYTES { return None; }
    var value := host.load(raw.value);
    if value.None? || !ValidHeader(host, value.value) { return None; }
    var parsed := ParseManifestFiles(host, ValidFiles(host, value.value));
    if parsed.None? || "database.dump" !in PathsOf(parsed.value) { return None; }
    if Names(names) != PathsOf(parsed.value) + {"manifest.json"} { return None; }
    var total := VerifyContents(host, zip, parsed.value, |raw.value|);
    if total.None? { return None; }
    return parsed;
  }

  function ValidFiles(host: Host, value: Py): (items: seq<Py>)
    requires ValidHeader(host, value)
    ensures value.PyDict? && "files" in value.entries && value.entries["files"] == PyList(items)
  {
    value.entries["files"].items
  }

  // ---------- Unpacking ----------

  /** A staging directory: its directories and its files, by their paths below it. */
  datatype Tree = Tree(dirs: set<Path>, files: map<Path, Octets>)

  function ParentsOf(p: Path): set<Path> {
    set n | 0 <= n < |p| :: p[..n]
  }

  // `mkdir(parents=True, exist_ok=True)` of the directory a file goes to.
  function MakeParents(t: Tree, p: Path): Option<Tree> {
    if exists d :: d in ParentsOf(p) && d in t.files then None else Some(t.(dirs := t.dirs + ParentsOf(p)))
  }

  // Creating a file that must not exist yet.
  function CreateFile(t: Tree, p: Path, content: Octets): Option<Tree> {
    if p in t.files || p in t.dirs then None else Some(t.(files := t.files[p := content]))
  }

  const EMPTY_STAGE := Tree({[], ["media"], ["media", "objects"], ["media", "thumbnails"]}, map[])

  function ExtractOne(t: Tree, zip: seq<Member>, entry: Entry): Option<Tree> {
    var p := Parts(entry.path);
    match (GetInfo(zip, entry.path), MakeParents(t, p))
    case (Some(info), Some(t')) => if info.content.None? then None else CreateFile(t', p, info.content.value)
    case _ => None
  }

  function Extract(zip: seq<Member>, entries: seq<Entry>): Option<Tree> {
    if entries == [] then Some(EMPTY_STAGE)
    else
      match Extract(zip, entries[..|entries| - 1])
      case None => None
      case Some(t) => ExtractOne(t, zip, entries[|entries| - 1])
  }

  /** The staging directory while it is filled. */
  class Stage {
    var dirs: set<Path>
    var files: map<Path, Octets>

    constructor ()
      ensures dirs == {[]} && files == map[]
    {
      dirs := {[]};
      files := map[];
    }

    function Contents(): Tree
      reads this
    {
      Tree(dirs, files)
    }

    // One entry; false when a step fails, which ends the restore.
    method ExtractEntry(zip: seq<Member>, entry: Entry) returns (ok: bool)
      modifies this
      ensures ok <==> ExtractOne(old(Contents()), zip, entry).Some?
      ensures ok ==> Contents() == ExtractOne(old(Contents()), zip, entry).value
    {
      var p := Parts(entry.path);
      if exists d :: d in ParentsOf(p) && d in files { return false; }
      dirs := dirs + ParentsOf(p);
      var info := GetInfo(zip, entry.path);
      if p in files || p in dirs || info.None? || info.value.content.None? { return false; }
      files := files[p := info.value.content.value];
      return true;
    }

    method ExtractMedia(zip: seq<Member>, entries: seq<Entry>) returns (ok: bool)
      requires dirs == {[]} && files == map[]
      modifies this
      ensures ok <==> Extract(zip, entries).Some?
      ensures ok ==> Contents() == Extract(zip, entries).value
    {
      dirs := dirs + {["media"], ["media", "objects"], ["media", "thumbnails"]};
      assert dirs == EMPTY_STAGE.dirs;
      for i := 0 to |entries|
        invariant Extract(zip, entries[..i]) == Some(Contents())
      {
        hide ExtractOne;
        assert entries[..i + 1][..i] == entries[..i];
        var done := ExtractEntry(zip, entries[i]);
        if !done {
          ExtractStops(zip, entries, i + 1);
          return false;
        }
      }
      assert entries[..|entries|] == entries;
      return true;
    }
  }

  lemma {:induction false} ExtractStops(zip: seq<Member>, entries: seq<Entry>, k: nat)
    requires k <= |entries| && Extract(zip, entries[..k]).None?
    ensures Extract(zip, entries).None?
    decreases |entries|
  {
    hide ExtractOne;
    if k == |entries| {
      assert entries[..k] == entries;
    } else {
      assert entries[..|entries| - 1][..k] == entries[..k];
      ExtractStops(zip, entries[..|entries| - 1], k);
    }
  }
}
