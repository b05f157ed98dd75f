/** The staging directory as a directory tree: the node that unpacking builds for `media`, and why it
    holds what the staging directory holds path by path. */
module StagedTree {
  import opened Wrappers
  import opened Bytes
  import opened Paths
  import opened BackupArchive
  import opened MediaBackup
  import opened MediaRestore

  // ---------- Directories as lists of children ----------

  function Put(children: Listing, name: string, node: Node): Listing {
    if children == [] then [Child(name, node)]
    else if children[0].name == name then [Child(name, node)] + children[1..]
    else [children[0]] + Put(children[1..], name, node)
  }

  ghost predicate DistinctNames(children: Listing) {
    forall i, j :: 0 <= i < j < |children| ==> children[i].name != children[j].name
  }

  lemma {:induction false} LookupChild(children: Listing, i: nat)
    requires DistinctNames(children) && i < |children|
    ensures ChildOf(children, children[i].name) == Some(children[i].node)
  {
    if i > 0 {
      var rest := children[1..];
      assert rest[i - 1] == children[i];
      assert forall k, l :: 0 <= k < l < |rest| ==> rest[k] == children[k + 1] && rest[l] == children[l + 1];
      LookupChild(rest, i - 1);
    }
  }

  lemma {:induction false} FoundChild(children: Listing, name: string) returns (i: nat)
    requires ChildOf(children, name).Some?
    ensures i < |children| && children[i] == Child(name, ChildOf(children, name).value)
  {
    if children[0].name == name {
      i := 0;
    } else {
      var k := FoundChild(children[1..], name);
      i := k + 1;
    }
  }

  lemma {:induction false} PutChild(children: Listing, name: string, node: Node, other: string)
    ensures ChildOf(Put(children, name, node), other) ==
      if other == name then Some(node) else ChildOf(children, other)
  {
    if children != [] && children[0].name != name { PutChild(children[1..], name, node, other); }
  }

  lemma DistinctTail(children: Listing)
    requires DistinctNames(children) && children != []
    ensures DistinctNames(children[1..])
    ensures forall c :: c in children[1..] ==> c.name != children[0].name
  {
    var rest := children[1..];
    assert forall i :: 0 <= i < |rest| ==> rest[i] == children[i + 1];
  }

  lemma DistinctCons(child: Child, rest: Listing)
    requires DistinctNames(rest) && forall c :: c in rest ==> c.name != child.name
    ensures DistinctNames([child] + rest)
  {
    var all := [child] + rest;
    assert forall i :: 0 < i < |all| ==> all[i] == rest[i - 1] && all[i] in rest;
  }

  // Each child of the new list is the new node, or was there under another name.
  lemma {:induction false} PutMembers(children: Listing, name: string, node: Node)
    requires DistinctNames(children)
    ensures forall c :: c in Put(children, name, node) ==> c == Child(name, node) || (c in children && c.name != name)
    ensures DistinctNames(Put(children, name, node))
  {
    if children != [] {
      var first, rest := children[0], children[1..];
      DistinctTail(children);
      hide DistinctNames;
      if first.name == name {
        DistinctCons(Child(name, node), rest);
      } else {
        PutMembers(rest, name, node);
        DistinctCons(first, Put(rest, name, node));
      }
    }
  }

  // ---------- A path and its first name ----------

  lemma FileThrough(children: Listing, p: Path, content: Octets)
    requires DistinctNames(children) && p != []
    ensures HasFile(children, p, content) <==>
      match ChildOf(children, p[0])
      case None => false
      case Some(node) =>
        if |p| == 1 then node == File(content) else node.Directory? && HasFile(node.children, p[1..], content)
  {
    forall i | 0 <= i < |children| && children[i].name == p[0]
      ensures ChildOf(children, p[0]) == Some(children[i].node)
    {
      LookupChild(children, i);
    }
    if ChildOf(children, p[0]).Some? {
      var i := FoundChild(children, p[0]);
      assert children[i].name == p[0];
    }
  }

  // A file can be made here: nothing stands at the path, and no file on the way to it.
  predicate Free(children: Listing, p: Path)
    decreases p
  {
    && p != []
    && match ChildOf(children, p[0])
       case None => true
       case Some(node) => |p| > 1 && node.Directory? && Free(node.children, p[1..])
  }

  // The directory of this name, or the empty one that is made for it.
  function Below(children: Listing, name: string): Listing {
    match ChildOf(children, name)
    case Some(Directory(inner)) => inner
    case _ => []
  }

  // Making a file and the directories on the way to it.
  function Grow(children: Listing, p: Path, content: Octets): Listing
    requires p != []
    decreases p
  {
    Put(children, p[0],
      if |p| == 1 then File(content) else Directory(Grow(Below(children, p[0]), p[1..], content)))
  }

  lemma SoundChild(children: Listing, name: string)
    requires WellNamed(children) && Regular(children)
    ensures DistinctNames(children)
    ensures WellNamed(Below(children, name)) && Regular(Below(children, name))
  {
    if ChildOf(children, name).Some? {
      var i := FoundChild(children, name);
      assert children[i].node == ChildOf(children, name).value;
    }
  }

  // Sound children stay sound when a sound one is put among them.
  lemma PutSound(children: Listing, name: string, node: Node)
    requires WellNamed(children) && Regular(children) && ValidName(name)
    requires node.File? || (node.Directory? && WellNamed(node.children) && Regular(node.children))
    ensures WellNamed(Put(children, name, node)) && Regular(Put(children, name, node))
  {
    PutMembers(children, name, node);
    var next := Put(children, name, node);
    forall i | 0 <= i < |next|
      ensures ValidName(next[i].name) && (next[i].node.File? || next[i].node.Directory?)
      ensures next[i].node.Directory? ==> WellNamed(next[i].node.children) && Regular(next[i].node.children)
    {
      assert next[i] in next;
      if next[i] != Child(name, node) {
        var k :| 0 <= k < |children| && children[k] == next[i];
      }
    }
  }

  lemma {:induction false} GrowSound(children: Listing, p: Path, content: Octets)
    requires WellNamed(children) && Regular(children) && ValidPath(p) && p != []
    ensures WellNamed(Grow(children, p, content)) && Regular(Grow(children, p, content))
    decreases p
  {
    hide WellNamed, Regular, ValidName, Put, Below;
    SoundChild(children, p[0]);
    if |p| > 1 { GrowSound(Below(children, p[0]), p[1..], content); }
    PutSound(children, p[0], if |p| == 1 then File(content)
                             else Directory(Grow(Below(children, p[0]), p[1..], content)));
  }

  lemma NothingThere(p: Path, content: Octets)
    ensures !HasFile([], p, content)
  {
  }

  /** Making a file adds exactly that file. */
  lemma {:induction false} GrowFiles(children: Listing, p: Path, content: Octets, q: Path, there: Octets)
    requires WellNamed(children) && Regular(children) && ValidPath(p) && Free(children, p)
    ensures HasFile(Grow(children, p, content), q, there) <==>
      HasFile(children, q, there) || (q == p && there == content)
    decreases p
  {
    if q != [] {
      var next, inner := Grow(children, p, content), Below(children, p[0]);
      SoundChild(children, p[0]);
      GrowSound(children, p, content);
      SoundChild(next, p[0]);
      FileThrough(children, q, there);
      FileThrough(next, q, there);
      hide WellNamed, Regular, ValidName, Put, HasFile;
      PutChild(children, p[0], if |p| == 1 then File(content) else Directory(Grow(inner, p[1..], content)), q[0]);
      if q[0] == p[0] && |p| > 1 {
        GrowFiles(inner, p[1..], content, q[1..], there);
        NothingThere(q[1..], there);
        assert q == p <==> q[1..] == p[1..] by { assert p == [p[0]] + p[1..] && q == [q[0]] + q[1..]; }
      }
    }
  }

  lemma ApartThrough(p: Path, q: Path)
    requires p != [] && q != []
    ensures Apart(p, q) <==> p[0] != q[0] || Apart(p[1..], q[1..])
  {
    if p[0] == q[0] && Apart(p, q) {
      var i :| 0 <= i < |p| && i < |q| && p[i] != q[i];
      assert p[1..][i - 1] != q[1..][i - 1];
    }
    if Apart(p[1..], q[1..]) {
      var i :| 0 <= i < |p[1..]| && i < |q[1..]| && p[1..][i] != q[1..][i];
      assert p[i + 1] != q[i + 1];
    }
  }

  /** And takes the room of exactly the paths that are not apart from it. */
  lemma {:induction false} GrowFree(children: Listing, p: Path, content: Octets, q: Path)
    requires Free(children, p) && q != []
    ensures Free(Grow(children, p, content), q) <==> Free(children, q) && Apart(p, q)
    decreases p
  {
    hide Apart, Put;
    var inner := Below(children, p[0]);
    PutChild(children, p[0], if |p| == 1 then File(content) else Directory(Grow(inner, p[1..], content)), q[0]);
    ApartThrough(p, q);
    if |p| == 1 || |q| == 1 {
      NotApartFromNothing(p[1..], q[1..]);
    } else if p[0] == q[0] {
      GrowFree(inner, p[1..], content, q[1..]);
    }
  }

  lemma NotApartFromNothing(p: Path, q: Path)
    requires p == [] || q == []
    ensures !Apart(p, q)
  {
  }

  // ---------- Unpacking into a tree ----------

  // What is made before the first file: the two kinds, empty.
  const FIRST_CHILDREN: Listing := [Child("objects", Directory([])), Child("thumbnails", Directory([]))]

  // The children of `media` in the staging directory, as unpacking makes them.
  function StagedMedia(zip: seq<Member>, entries: seq<Entry>): Listing {
    if entries == [] then FIRST_CHILDREN
    else
      var before, entry := StagedMedia(zip, entries[..|entries| - 1]), entries[|entries| - 1];
      var p, info := Parts(entry.path), GetInfo(zip, entry.path);
      if |p| > 1 && p[0] == "media" && info.Some? && info.value.content.Some?
      then Grow(before, p[1..], info.value.content.value) else before
  }

  // A file can be made in the staging directory at this path.
  ghost predicate Unobstructed(t: Tree, p: Path) {
    p !in t.files && p !in t.dirs && forall d :: d in ParentsOf(p) ==> d !in t.files
  }

  ghost predicate FileAt(t: Tree, p: Path, content: Octets) {
    p in t.files && t.files[p] == content
  }

  // The children of `media` are sound and hold what the staging directory holds below it, and leave
  // the same room.
  ghost predicate SameMedia(t: Tree, children: Listing) {
    && WellNamed(children) && Regular(children)
    && (forall p, content :: HasFile(children, p, content) <==> p != [] && FileAt(t, ["media"] + p, content))
    && (forall p :: p != [] ==> (Free(children, p) <==> Unobstructed(t, ["media"] + p)))
    && [] in t.dirs && ["media"] in t.dirs
  }

  lemma FirstSame()
    ensures SameMedia(EMPTY_STAGE, FIRST_CHILDREN)
  {
    var children := FIRST_CHILDREN;
    assert WellNamed([]) && Regular([]);
    forall p, content
      ensures !HasFile(children, p, content)
    {
      if |p| > 1 { NothingThere(p[1..], content); }
    }
    forall p: Path | p != []
      ensures Free(children, p) <==> Unobstructed(EMPTY_STAGE, ["media"] + p)
    {
      FirstRoom(p);
    }
  }

  lemma FirstRoom(p: Path)
    requires p != []
    ensures Free(FIRST_CHILDREN, p) <==> p != ["objects"] && p != ["thumbnails"]
    ensures Unobstructed(EMPTY_STAGE, ["media"] + p) <==> p != ["objects"] && p != ["thumbnails"]
  {
    BelowMedia(p, ["objects"]);
    BelowMedia(p, ["thumbnails"]);
    assert ["media"] + ["objects"] == ["media", "objects"] && ["media"] + ["thumbnails"] == ["media", "thumbnails"];
    assert |p| == 1 ==> p == [p[0]];
    var rest := FIRST_CHILDREN[1..];
    assert rest == [Child("thumbnails", Directory([]))] && rest[1..] == [];
    assert ChildOf(rest, p[0]) == if p[0] == "thumbnails" then Some(Directory([])) else None;
    assert ChildOf(FIRST_CHILDREN, p[0]) == if p[0] == "objects" then Some(Directory([])) else ChildOf(rest, p[0]);
    assert |p| > 1 ==> Free([], p[1..]);
  }

  lemma {:induction false} ApartOrPrefix(p: Path, q: Path)
    ensures Apart(p, q) <==> !(p <= q) && !(q <= p)
    decreases |p|
  {
    if p != [] && q != [] {
      ApartThrough(p, q);
      ApartOrPrefix(p[1..], q[1..]);
      assert p == [p[0]] + p[1..] && q == [q[0]] + q[1..];
    }
  }

  lemma ParentsAre(p: Path, d: Path)
    ensures d in ParentsOf(p) <==> d <= p && d != p
  {
    if d <= p && d != p { assert d == p[..|d|]; }
  }

  // Making one more file in the staging directory.
  lemma MadeRoom(t: Tree, p: Path, content: Octets, q: Path)
    requires Unobstructed(t, p)
    ensures Unobstructed(Tree(t.dirs + ParentsOf(p), t.files[p := content]), q) <==> Unobstructed(t, q) && Apart(p, q)
  {
    hide Apart;
    ParentsAre(p, q);
    ParentsAre(q, p);
    ApartOrPrefix(p, q);
  }

  lemma ExtractedOne(t: Tree, zip: seq<Member>, entry: Entry)
    requires ExtractOne(t, zip, entry).Some?
    ensures var p, info := Parts(entry.path), GetInfo(zip, entry.path);
      && info.Some? && info.value.content.Some? && Unobstructed(t, p)
      && ExtractOne(t, zip, entry).value == Tree(t.dirs + ParentsOf(p), t.files[p := info.value.content.value])
  {
  }

  lemma BelowMedia(p: Path, q: Path)
    ensures Apart(["media"] + p, ["media"] + q) <==> Apart(p, q)
    ensures ["media"] + p == ["media"] + q <==> p == q
  {
    var a, b := ["media"] + p, ["media"] + q;
    ApartThrough(a, b);
    assert a[1..] == p && b[1..] == q;
  }

  // A file of the media tree.
  lemma StepSame(t: Tree, children: Listing, p: Path, content: Octets)
    requires SameMedia(t, children) && p != [] && ValidPath(p) && Unobstructed(t, ["media"] + p)
    ensures SameMedia(Tree(t.dirs + ParentsOf(["media"] + p), t.files[["media"] + p := content]),
              Grow(children, p, content))
  {
    var at := ["media"] + p;
    assert at !in t.files && Free(children, p);
    hide WellNamed, Regular, ValidPath, HasFile, Free, Grow, ParentsOf, Unobstructed, Apart;
    var next, grown := Tree(t.dirs + ParentsOf(at), t.files[at := content]), Grow(children, p, content);
    GrowSound(children, p, content);
    forall q, there
      ensures HasFile(grown, q, there) <==> q != [] && FileAt(next, ["media"] + q, there)
    {
      GrowFiles(children, p, content, q, there);
      BelowMedia(p, q);
    }
    forall q: Path | q != []
      ensures Free(grown, q) <==> Unobstructed(next, ["media"] + q)
    {
      GrowFree(children, p, content, q);
      MadeRoom(t, at, content, ["media"] + q);
      BelowMedia(p, q);
    }
  }

  // A file beside it.
  lemma StepBeside(t: Tree, children: Listing, p: Path, content: Octets)
    requires SameMedia(t, children) && p != [] && p[0] != "media" && Unobstructed(t, p)
    ensures SameMedia(Tree(t.dirs + ParentsOf(p), t.files[p := content]), children)
  {
    hide WellNamed, Regular, HasFile, Free, ParentsOf, Unobstructed, Apart;
    var next := Tree(t.dirs + ParentsOf(p), t.files[p := content]);
    forall q: Path
      ensures Unobstructed(next, ["media"] + q) <==> Unobstructed(t, ["media"] + q)
      ensures ["media"] + q != p
    {
      MadeRoom(t, p, content, ["media"] + q);
      ApartThrough(p, ["media"] + q);
    }
  }

  ghost predicate SafeEntries(entries: seq<Entry>) {
    forall i :: 0 <= i < |entries| ==> ValidPath(Parts(entries[i].path))
  }

  /** The tree that unpacking builds holds, path by path, the files of the staging directory. */
  lemma {:induction false} StagedIsUnpacked(zip: seq<Member>, entries: seq<Entry>)
    requires SafeEntries(entries) && Extract(zip, entries).Some?
    ensures SameMedia(Extract(zip, entries).value, StagedMedia(zip, entries))
  {
    if entries == [] {
      FirstSame();
    } else {
      hide SameMedia, Parts, GetInfo, ExtractOne, Unobstructed, Grow, ValidPath, ParentsOf;
      var earlier, entry := entries[..|entries| - 1], entries[|entries| - 1];
      assert forall i :: 0 <= i < |earlier| ==> earlier[i] == entries[i];
      StagedIsUnpacked(zip, earlier);
      var t, children, p := Extract(zip, earlier).value, StagedMedia(zip, earlier), Parts(entry.path);
      ExtractedOne(t, zip, entry);
      var content := GetInfo(zip, entry.path).value.content.value;
      RootsTaken(t, children, p);
      if p[0] == "media" {
        TailValid(p);
        assert p == ["media"] + p[1..];
        StepSame(t, children, p[1..], content);
      } else {
        StepBeside(t, children, p, content);
      }
    }
  }

  lemma RootsTaken(t: Tree, children: Listing, p: Path)
    requires SameMedia(t, children) && Unobstructed(t, p)
    ensures p != [] && (p[0] == "media" ==> |p| > 1)
  {
    hide WellNamed, Regular, HasFile, Free;
    if |p| == 1 { assert p == [p[0]]; }
  }

  lemma TailValid(p: Path)
    requires ValidPath(p) && p != []
    ensures ValidPath(p[1..])
  {
  }

  // ---------- Accepted entries are safe ----------

  lemma {:induction false} SplitNames(s: string)
    ensures forall i :: 0 <= i < |Split(s)| ==> '/' !in Split(s)[i]
  {
    if s != "" { SplitNames(s[..|s| - 1]); }
  }

  lemma {:induction false} KeptNames(parts: Path)
    requires forall i :: 0 <= i < |parts| ==> '/' !in parts[i]
    ensures forall i :: 0 <= i < |Kept(parts)| ==>
      Kept(parts)[i] in parts && Kept(parts)[i] != "" && Kept(parts)[i] != "." && '/' !in Kept(parts)[i]
  {
    if parts != [] { KeptNames(parts[..|parts| - 1]); }
  }

  lemma SafePathIsValid(s: string)
    requires SafeMember(s).Some?
    ensures ValidPath(Parts(SafeMember(s).value))
  {
    hide Split, Kept, Join;
    SplitNames(s);
    KeptNames(Split(s));
    var p := Parts(s);
    assert forall i :: 0 <= i < |p| ==> p[i] in p;
    if p == [] { DotIsNothing(); } else { PartsJoin(p); }
  }

  lemma DotIsNothing()
    ensures Parts(".") == []
  {
    assert "."[..0] == "" && Split("") == [""] && "" + ["."[0]] == ".";
    assert Split(".") == ["."];
    assert Kept(["."]) == [];
  }

  lemma {:induction false} ParsedAreSafe(host: Host, items: seq<Py>)
    requires ParseEntries(host, items).Some?
    ensures SafeEntries(ParseEntries(host, items).value)
  {
    if items != [] {
      hide Parts, ValidPath, SafeMember, KindMatches;
      ParsedAreSafe(host, items[..|items| - 1]);
      var path := items[|items| - 1].entries["path"];
      SafePathIsValid(path.s);
    }
  }

  lemma AcceptedAreSafe(host: Host, zip: seq<Member>)
    requires ValidateZip(host, zip).Some?
    ensures SafeEntries(ValidateZip(host, zip).value)
  {
    hide SafeEntries, ParseEntries, CheckedNames, CheckContents, Names, PathsOf;
    var value := host.load(ReadManifest(zip).value).value;
    ParsedAreSafe(host, value.entries["files"].items);
  }
}
