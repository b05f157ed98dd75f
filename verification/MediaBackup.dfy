/** Collecting a media tree into the members and the manifest of a backup archive. */
module MediaBackup {
  import opened Wrappers
  import opened Bytes
  import opened Paths
  import opened BackupArchive

  /** What a directory holds under a name. */
  datatype Node = File(content: Octets) | Directory(children: seq<Child>) | Symlink | Special

  datatype Child = Child(name: string, node: Node)

  type Listing = seq<Child>

  /** A regular file found below the media root. */
  datatype Found = Found(path: Path, content: Octets)

  // ---------- Collecting ----------

  // The regular files below a directory, listed in the order given; `None` when a symbolic link,
  // a special file or an unsafe name is met.
  function Collect(children: Listing, relative: Path): Option<seq<Found>>
    decreases children
  {
    if children == [] then Some([])
    else
      var Child(name, node) := children[|children| - 1];
      match Collect(children[..|children| - 1], relative)
      case None => None
      case Some(before) =>
        match node
        case Symlink => None
        case Special => None
        case File(content) =>
          if SafeMember("media/" + Join(relative + [name])).None? then None
          else Some(before + [Found(relative + [name], content)])
        case Directory(inner) =>
          match Collect(inner, relative + [name])
          case None => None
          case Some(found) => Some(before + found)
  }

  function ChildOf(children: Listing, name: string): Option<Node> {
    if children == [] then None
    else if children[0].name == name then Some(children[0].node)
    else ChildOf(children[1..], name)
  }

  // One of the two directories of the media root; a missing one is skipped.
  function CollectKind(root: Listing, kind: string): Option<seq<Found>> {
    match ChildOf(root, kind)
    case None => Some([])
    case Some(Directory(children)) => Collect(children, [kind])
    case _ => None
  }

  function CollectMedia(root: Node): Option<seq<Found>> {
    if !root.Directory? then None
    else
      match (CollectKind(root.children, "objects"), CollectKind(root.children, "thumbnails"))
      case (Some(objects), Some(thumbnails)) => Some(objects + thumbnails)
      case _ => None
  }

  // Walks one directory, extending the list of entries as it goes.
  method CollectMediaDirectory(children: Listing, relative: Path) returns (entries: Option<seq<Found>>)
    ensures entries == Collect(children, relative)
    decreases children
  {
    var found: seq<Found> := [];
    for i := 0 to |children|
      invariant Collect(children[..i], relative) == Some(found)
    {
      hide SafeMember, Join;
      assert children[..i + 1][..i] == children[..i];
      var Child(name, node) := children[i];
      if node.Directory? {
        var inner := CollectMediaDirectory(node.children, relative + [name]);
        if inner.None? {
          CollectStops(children, relative, i + 1);
          return None;
        }
        found := found + inner.value;
      } else if !node.File? || SafeMember("media/" + Join(relative + [name])).None? {
        CollectStops(children, relative, i + 1);
        return None;
      } else {
        found := found + [Found(relative + [name], node.content)];
      }
    }
    assert children[..|children|] == children;
    return Some(found);
  }

  lemma {:induction false} CollectStops(children: Listing, relative: Path, k: nat)
    requires k <= |children| && Collect(children[..k], relative).None?
    ensures Collect(children, relative).None?
    decreases |children|
  {
    if k == |children| {
      assert children[..k] == children;
    } else {
      assert children[..|children| - 1][..k] == children[..k];
      CollectStops(children[..|children| - 1], relative, k);
    }
  }

  // ---------- The archive ----------

  /** What the manifest says beside its files; `procedure` is the fixed text on how to restore. */
  datatype Header = Header(schemaVersion: string, applicationRevision: string, createdAt: string, procedure: string)

  function EntryOf(host: Host, path: string, kind: string, content: Octets): Entry {
    Entry(path, kind, |content|, host.hash(content))
  }

  // The member name of a collected file.
  function MemberName(f: Found): string {
    SafeMember("media/" + Join(f.path)).GetOr("")
  }

  function KindOf(f: Found): string {
    if f.path == [] then "" else f.path[0]
  }

  function ManifestEntries(host: Host, dump: Octets, found: seq<Found>): seq<Entry> {
    [EntryOf(host, "database.dump", "database", dump)]
    + seq(|found|, i requires 0 <= i < |found| =>
            EntryOf(host, MemberName(found[i]), KindOf(found[i]), found[i].content))
  }

  function EntryValue(e: Entry): Py {
    PyDict(map["path" := PyStr(e.path), "kind" := PyStr(e.kind), "size" := PyInt(e.size), "sha256" := PyStr(e.sha256)])
  }

  function EntryValues(entries: seq<Entry>): seq<Py> {
    seq(|entries|, i requires 0 <= i < |entries| => EntryValue(entries[i]))
  }

  function ManifestValue(header: Header, entries: seq<Entry>): Py {
    PyDict(map[
      "schema_version" := PyStr(header.schemaVersion),
      "application_revision" := PyStr(header.applicationRevision),
      "created_at" := PyStr(header.createdAt),
      "file_count" := PyInt(|entries|),
      "expected_restore_procedure" := PyStr(header.procedure),
      "files" := PyList(EntryValues(entries))])
  }

  function Stored(name: string, content: Octets): Member {
    Member(name, false, |content|, Some(content))
  }

  function ArchiveOf(dump: Octets, found: seq<Found>, manifest: Octets): seq<Member> {
    [Stored("database.dump", dump)]
    + seq(|found|, i requires 0 <= i < |found| => Stored(MemberName(found[i]), found[i].content))
    + [Stored("manifest.json", manifest)]
  }

  function ManifestBytes(host: Host, header: Header, dump: Octets, found: seq<Found>): Octets {
    host.dump(ManifestValue(header, ManifestEntries(host, dump, found)))
  }

  // The members of the archive; `None` when collecting is refused.
  function CreateBackup(host: Host, header: Header, dump: Octets, root: Node): Option<seq<Member>> {
    match CollectMedia(root)
    case None => None
    case Some(found) => Some(ArchiveOf(dump, found, ManifestBytes(host, header, dump, found)))
  }

  // ---------- The reference: which files a tree holds ----------

  ghost predicate HasFile(children: Listing, path: Path, content: Octets)
    decreases path
  {
    path != [] &&
    exists i ::
      && 0 <= i < |children| && children[i].name == path[0]
      && if |path| == 1 then children[i].node == File(content)
         else children[i].node.Directory? && HasFile(children[i].node.children, path[1..], content)
  }

  // The names a file system gives: valid, and distinct in each directory.
  ghost predicate WellNamed(children: Listing)
    decreases children
  {
    && (forall i :: 0 <= i < |children| ==> ValidName(children[i].name))
    && (forall i, j :: 0 <= i < j < |children| ==> children[i].name != children[j].name)
    && (forall i :: 0 <= i < |children| && children[i].node.Directory? ==> WellNamed(children[i].node.children))
  }

  // Only directories and regular files.
  ghost predicate Regular(children: Listing)
    decreases children
  {
    forall i :: 0 <= i < |children| ==>
      !children[i].node.Symlink? && !children[i].node.Special?
        && (children[i].node.Directory? ==> Regular(children[i].node.children))
  }

  // ---------- What is collected ----------

  // The found file belongs to the tree, below `relative`.
  ghost predicate Belongs(children: Listing, relative: Path, f: Found) {
    relative <= f.path && HasFile(children, f.path[|relative|..], f.content)
  }

  lemma HasFileOf(children: Listing, i: nat, path: Path, content: Octets)
    requires i < |children| && path != [] && children[i].name == path[0]
    requires if |path| == 1 then children[i].node == File(content)
      else children[i].node.Directory? && HasFile(children[i].node.children, path[1..], content)
    ensures HasFile(children, path, content)
  {
  }

  lemma MoreChildren(children: Listing, child: Child, path: Path, content: Octets)
    ensures HasFile(children + [child], path, content) <==>
      HasFile(children, path, content) || HasFile([child], path, content)
  {
    var more := children + [child];
    if HasFile(children, path, content) {
      var i :| 0 <= i < |children| && children[i].name == path[0] &&
        if |path| == 1 then children[i].node == File(content)
        else children[i].node.Directory? && HasFile(children[i].node.children, path[1..], content);
      assert more[i] == children[i];
      HasFileOf(more, i, path, content);
    }
    if HasFile([child], path, content) {
      assert more[|children|] == child;
      HasFileOf(more, |children|, path, content);
    }
    if HasFile(more, path, content) {
      var i :| 0 <= i < |more| && more[i].name == path[0] &&
        if |path| == 1 then more[i].node == File(content)
        else more[i].node.Directory? && HasFile(more[i].node.children, path[1..], content);
      if i < |children| {
        assert more[i] == children[i];
        HasFileOf(children, i, path, content);
      } else {
        assert [child][0] == child;
        HasFileOf([child], 0, path, content);
      }
    }
  }

  lemma PrefixNamed(children: Listing)
    requires children != [] && WellNamed(children) && Regular(children)
    ensures var earlier := children[..|children| - 1]; WellNamed(earlier) && Regular(earlier)
  {
  }

  lemma LastIsSafe(relative: Path, name: string)
    requires ValidPath(relative) && ValidName(name)
    ensures SafeMember("media/" + Join(relative + [name])).Some?
  {
    JoinBelow(["media"], relative + [name]);
    assert "media" + "/" == "media/";
    SafeMemberJoin(["media"] + (relative + [name]));
  }

  // What the last child adds.
  lemma LastFound(children: Listing, relative: Path) returns (before: seq<Found>, added: seq<Found>)
    requires children != [] && Collect(children, relative).Some?
    ensures Collect(children, relative).value == before + added
    ensures Collect(children[..|children| - 1], relative) == Some(before)
    ensures var last := children[|children| - 1];
      if last.node.File? then added == [Found(relative + [last.name], last.node.content)]
      else last.node.Directory? && Collect(last.node.children, relative + [last.name]) == Some(added)
  {
    var last := children[|children| - 1];
    before := Collect(children[..|children| - 1], relative).value;
    added := if last.node.File? then [Found(relative + [last.name], last.node.content)]
             else Collect(last.node.children, relative + [last.name]).value;
  }

  /** A tree of regular files is collected, and exactly its files are found. */
  lemma {:induction false} CollectFinds(children: Listing, relative: Path)
    requires WellNamed(children) && Regular(children) && ValidPath(relative)
    ensures Collect(children, relative).Some?
    ensures forall f :: f in Collect(children, relative).value <==> Belongs(children, relative, f)
    decreases children
  {
    hide WellNamed, Regular, HasFile, Collect, SafeMember, Join, Belongs;
    if children == [] {
      NothingFound(relative);
    } else {
      var earlier, last := children[..|children| - 1], children[|children| - 1];
      PrefixNamed(children);
      CollectFinds(earlier, relative);
      LastNamed(children);
      LastIsSafe(relative, last.name);
      if last.node.Directory? { CollectFinds(last.node.children, relative + [last.name]); }
      LastCollected(children, relative);
      var before, added := LastFound(children, relative);
      forall f
        ensures f in Collect(children, relative).value <==> Belongs(children, relative, f)
      {
        MoreBelongs(earlier, last, relative, f);
        OneChild(last, relative, f);
        assert children == earlier + [last];
      }
    }
  }

  lemma NothingFound(relative: Path)
    ensures Collect([], relative) == Some([]) && forall f :: !Belongs([], relative, f)
  {
  }

  lemma LastCollected(children: Listing, relative: Path)
    requires children != []
    requires var last := children[|children| - 1];
      && Collect(children[..|children| - 1], relative).Some?
      && !last.node.Symlink? && !last.node.Special? && SafeMember("media/" + Join(relative + [last.name])).Some?
      && (last.node.Directory? ==> Collect(last.node.children, relative + [last.name]).Some?)
    ensures Collect(children, relative).Some?
  {
  }

  lemma MoreBelongs(earlier: Listing, child: Child, relative: Path, f: Found)
    ensures Belongs(earlier + [child], relative, f) <==> Belongs(earlier, relative, f) || Belongs([child], relative, f)
  {
    hide HasFile;
    if relative <= f.path { MoreChildren(earlier, child, f.path[|relative|..], f.content); }
  }

  lemma LastNamed(children: Listing)
    requires children != [] && WellNamed(children) && Regular(children)
    ensures var last := children[|children| - 1];
      && ValidName(last.name) && !last.node.Symlink? && !last.node.Special?
      && (last.node.Directory? ==> WellNamed(last.node.children) && Regular(last.node.children))
  {
  }

  // The files of a single child.
  lemma OneChild(child: Child, relative: Path, f: Found)
    ensures child.node.File? ==> (Belongs([child], relative, f) <==>
      f == Found(relative + [child.name], child.node.content))
    ensures child.node.Directory? ==>
      (Belongs([child], relative, f) <==> Belongs(child.node.children, relative + [child.name], f))
  {
    var below := relative + [child.name];
    PrefixChain(relative, child.name, f.path);
    if relative <= f.path {
      var rest := f.path[|relative|..];
      if below <= f.path {
        assert f.path[|below|..] == rest[1..];
        if child.node.Directory? && HasFile(child.node.children, rest[1..], f.content) {
          HasFileOf([child], 0, rest, f.content);
        }
      }
      if child.node.File? && rest == [child.name] {
        assert f.path == f.path[..|relative|] + rest == below;
        if f.content == child.node.content { HasFileOf([child], 0, rest, f.content); }
      }
    }
  }

  lemma PrefixChain(relative: Path, name: string, path: Path)
    ensures relative + [name] <= path <==> relative <= path && |path| > |relative| && path[|relative|] == name
  {
  }

  lemma IrregularChild(children: Listing)
    requires children != [] && !Regular(children)
    ensures var earlier, last := children[..|children| - 1], children[|children| - 1];
      !Regular(earlier) || last.node.Symlink? || last.node.Special?
        || (last.node.Directory? && !Regular(last.node.children))
  {
    var earlier := children[..|children| - 1];
    assert forall i :: 0 <= i < |earlier| ==> earlier[i] == children[i];
  }

  lemma {:induction false} IrregularRefused(children: Listing, relative: Path)
    requires !Regular(children)
    ensures Collect(children, relative).None?
    decreases children
  {
    if children != [] {
      var earlier, last := children[..|children| - 1], children[|children| - 1];
      IrregularChild(children);
      hide Regular, SafeMember, Join;
      if !Regular(earlier) {
        IrregularRefused(earlier, relative);
      } else if last.node.Directory? {
        IrregularRefused(last.node.children, relative + [last.name]);
      }
    }
  }

  /** Collecting is refused exactly when a symbolic link or a special file lies somewhere below. */
  lemma CollectsExactlyRegular(children: Listing, relative: Path)
    requires WellNamed(children) && ValidPath(relative)
    ensures Collect(children, relative).Some? <==> Regular(children)
  {
    hide WellNamed, Regular, Collect;
    if Regular(children) {
      CollectFinds(children, relative);
    } else {
      IrregularRefused(children, relative);
    }
  }

  ghost predicate AllApart(files: seq<Found>) {
    forall i, j :: 0 <= i < j < |files| ==> Apart(files[i].path, files[j].path)
  }

  ghost predicate AllBelow(files: seq<Found>, directory: Path) {
    forall i :: 0 <= i < |files| ==>
      directory <= files[i].path && ValidPath(files[i].path) && |files[i].path| > |directory|
  }

  // Every file lies below one of the children.
  ghost predicate UnderChildren(files: seq<Found>, relative: Path, children: Listing) {
    forall i :: 0 <= i < |files| ==> exists k :: 0 <= k < |children| && relative + [children[k].name] <= files[i].path
  }

  lemma ApartByName(relative: Path, a: string, b: string, p: Path, q: Path)
    requires a != b && relative + [a] <= p && relative + [b] <= q
    ensures Apart(p, q)
  {
    assert p[|relative|] == (relative + [a])[|relative|] && q[|relative|] == (relative + [b])[|relative|];
  }

  lemma ApartConcat(a: seq<Found>, b: seq<Found>)
    requires AllApart(a) && AllApart(b)
    requires forall i, j :: 0 <= i < |a| && 0 <= j < |b| ==> Apart(a[i].path, b[j].path)
    ensures AllApart(a + b)
  {
  }

  lemma BelowConcat(a: seq<Found>, b: seq<Found>, directory: Path)
    requires AllBelow(a, directory) && AllBelow(b, directory)
    ensures AllBelow(a + b, directory)
  {
    hide ValidPath;
  }

  // A file under one of the children is apart from a path under a child of another name.
  lemma ApartFromEarlier(files: seq<Found>, i: nat, relative: Path, children: Listing, name: string, p: Path)
    requires i < |files| && UnderChildren(files, relative, children) && relative + [name] <= p
    requires forall k :: 0 <= k < |children| ==> children[k].name != name
    ensures Apart(files[i].path, p)
  {
    hide Apart;
    var q := files[i].path;
    assert exists k :: 0 <= k < |children| && relative + [children[k].name] <= q;
    var k :| 0 <= k < |children| && relative + [children[k].name] <= q;
    ApartByName(relative, children[k].name, name, q, p);
  }

  lemma UnderConcat(before: seq<Found>, added: seq<Found>, relative: Path, children: Listing)
    requires children != [] && UnderChildren(before, relative, children[..|children| - 1])
    requires forall j :: 0 <= j < |added| ==> relative + [children[|children| - 1].name] <= added[j].path
    ensures UnderChildren(before + added, relative, children)
  {
    var earlier, all := children[..|children| - 1], before + added;
    forall i | 0 <= i < |all|
      ensures exists k :: 0 <= k < |children| && relative + [children[k].name] <= all[i].path
    {
      if i < |before| {
        assert all[i] == before[i];
        assert exists k :: 0 <= k < |earlier| && relative + [earlier[k].name] <= before[i].path;
        var k :| 0 <= k < |earlier| && relative + [earlier[k].name] <= before[i].path;
        assert children[k] == earlier[k];
      } else {
        assert all[i] == added[i - |before|];
      }
    }
  }

  ghost predicate Spread(files: seq<Found>, relative: Path, children: Listing) {
    AllApart(files) && AllBelow(files, relative) && UnderChildren(files, relative, children)
  }

  lemma SpreadConcat(before: seq<Found>, added: seq<Found>, relative: Path, children: Listing)
    requires children != []
    requires var earlier, last := children[..|children| - 1], children[|children| - 1];
      && (forall k :: 0 <= k < |earlier| ==> earlier[k].name != last.name)
      && Spread(before, relative, earlier) && AllApart(added) && AllBelow(added, relative)
      && (forall j :: 0 <= j < |added| ==> relative + [last.name] <= added[j].path)
    ensures Spread(before + added, relative, children)
  {
    hide Apart, ValidPath;
    var earlier, last := children[..|children| - 1], children[|children| - 1];
    forall i, j | 0 <= i < |before| && 0 <= j < |added|
      ensures Apart(before[i].path, added[j].path)
    {
      ApartFromEarlier(before, i, relative, earlier, last.name, added[j].path);
    }
    ApartConcat(before, added);
    BelowConcat(before, added, relative);
    UnderConcat(before, added, relative, children);
  }

  lemma LowerBelow(files: seq<Found>, relative: Path, name: string)
    requires AllBelow(files, relative + [name])
    ensures AllBelow(files, relative)
    ensures forall j :: 0 <= j < |files| ==> relative + [name] <= files[j].path
  {
  }

  /** No collected path is another one, or a directory of another one. */
  lemma {:induction false} CollectApart(children: Listing, relative: Path)
    requires WellNamed(children) && Regular(children) && ValidPath(relative) && Collect(children, relative).Some?
    ensures Spread(Collect(children, relative).value, relative, children)
    decreases children
  {
    if children != [] {
      var earlier, last := children[..|children| - 1], children[|children| - 1];
      PrefixNamed(children);
      LastNamed(children);
      assert forall k :: 0 <= k < |earlier| ==> earlier[k].name != last.name;
      hide Collect, WellNamed, Regular;
      CollectApart(earlier, relative);
      var before, added := LastFound(children, relative);
      if last.node.Directory? {
        CollectApart(last.node.children, relative + [last.name]);
        LowerBelow(added, relative, last.name);
      }
      SpreadConcat(before, added, relative, children);
    } else {
      assert Collect(children, relative) == Some([]);
    }
  }
}
