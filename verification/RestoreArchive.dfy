/** A whole restore: validating, unpacking beside the target, restoring the database and publishing
    the media, and what the target then holds. */
module RestoreArchive {
  import opened Wrappers
  import opened Bytes
  import opened Paths
  import opened BackupArchive
  import opened MediaBackup
  import opened MediaRestore
  import opened BackupRoundTrip
  import opened PublishMedia
  import opened StagedTree

  // The target may be missing, or a directory that is empty unless replacing it is allowed.
  predicate SafeTarget(target: Option<Node>, allowNonempty: bool) {
    match target
    case None => true
    case Some(Directory(children)) => children == [] || allowNonempty
    case _ => false
  }

  // Nothing but a failing step can prevent the restore.
  predicate Restorable(host: Host, zip: seq<Member>, target: Option<Node>, parentIsDirectory: bool,
        allowNonempty: bool)
  {
    && ValidateZip(host, zip).Some? && SafeTarget(target, allowNonempty) && parentIsDirectory
    && Extract(zip, ValidateZip(host, zip).value).Some?
  }

  function RestoredTree(host: Host, zip: seq<Member>): Node
    requires ValidateZip(host, zip).Some?
  {
    Directory(StagedMedia(zip, ValidateZip(host, zip).value))
  }

  // Removing the staging directory; errors are ignored, so some of it may remain.
  method CleanUp(fs: FileSystem, stage: string)
    modifies fs`entries
    ensures stage !in old(fs.entries) ==> fs.entries == old(fs.entries)
    ensures forall path :: path != stage ==> Lookup(fs.entries, path) == Lookup(old(fs.entries), path)
  {
    if stage in fs.entries {
      var remains: Option<Node> := *;
      fs.entries := if remains.Some? then fs.entries[stage := remains.value] else fs.entries - {stage};
    }
  }

  // Unpacks beside the target. A failing step, or a path in the way, leaves part of the tree.
  method StageMedia(host: Host, zip: seq<Member>, fs: FileSystem, stage: string) returns (staged: bool)
    requires ValidateZip(host, zip).Some? && stage !in fs.entries
    modifies fs
    ensures old(fs.step) <= fs.step
    ensures staged <==> Extract(zip, ValidateZip(host, zip).value).Some? && fs.AllWell(old(fs.step))
    ensures staged ==> fs.step == old(fs.step) + 2 && fs.entries == old(fs.entries)[stage := RestoredTree(host, zip)]
    ensures forall path :: path != stage ==> Lookup(fs.entries, path) == Lookup(old(fs.entries), path)
  {
    hide ValidateZip, Extract, StagedMedia;
    var entries := ValidateZip(host, zip).value;
    var made := fs.Attempt();
    if !made { return false; }
    var tree := new Stage();
    var unpacked := tree.ExtractMedia(zip, entries);
    var written := fs.Attempt();
    staged := unpacked && written;
    var node: Node := *;
    if staged { node := Directory(StagedMedia(zip, entries)); }
    fs.entries := fs.entries[stage := node];
  }

  /** `stage` is the `media` directory of the staging directory and `temporary` the name an old target
      is set aside under; both names are chosen free. */
  method Restore(host: Host, zip: seq<Member>, fs: FileSystem, target: string, stage: string, temporary: string,
        parentIsDirectory: bool, allowNonempty: bool)
    returns (restored: bool)
    requires stage !in fs.entries && temporary !in fs.entries
    requires stage != target && temporary != target && temporary != stage
    modifies fs
    // It returns exactly when nothing stands against it and no step fails.
    ensures restored <==>
      && Restorable(host, zip, Lookup(old(fs.entries), target), parentIsDirectory, allowNonempty)
      && fs.AllWell(old(fs.step))
    // The target then holds the media of the archive, and nothing is left beside it. Every step was taken:
    // two for unpacking, one for the database, and those of publishing.
    ensures restored ==>
      && fs.step == old(fs.step) + 3 + (if target in old(fs.entries) then 8 else 4)
      && target in fs.entries && fs.entries[target] == RestoredTree(host, zip)
      && stage !in fs.entries && temporary !in fs.entries
    // Unless the unpacking and the database went well, the target holds what it held.
    ensures (exists n :: old(fs.step) <= n < old(fs.step) + 3 && fs.fails(n)) ==>
      Lookup(fs.entries, target) == Lookup(old(fs.entries), target)
    // However it ends, the target is whole: it holds what it held, or the media of the archive.
    ensures Lookup(fs.entries, target) == Lookup(old(fs.entries), target)
      || (&& Restorable(host, zip, Lookup(old(fs.entries), target), parentIsDirectory, allowNonempty)
          && Lookup(fs.entries, target) == Some(RestoredTree(host, zip)))
    ensures forall path :: path != stage && path != target && path != temporary ==>
      Lookup(fs.entries, path) == Lookup(old(fs.entries), path)
  {
    hide ValidateZip, Extract, StagedMedia, SafeTarget;
    var entries := ValidateArchive(host, zip);
    if entries.None? || !SafeTarget(Lookup(fs.entries, target), allowNonempty) || !parentIsDirectory { return false; }
    var staged := StageMedia(host, zip, fs, stage);
    if !staged {
      CleanUp(fs, stage);
      return false;
    }
    var databaseRestored := fs.Attempt();
    if !databaseRestored {
      CleanUp(fs, stage);
      return false;
    }
    var outcome := fs.Publish(stage, target, temporary, true);
    restored := outcome.Returned?;
    CleanUp(fs, stage);
  }

  lemma DropMedia(p: Path)
    ensures (["media"] + p)[1..] == p && (["media"] + p)[0] == "media"
  {
  }

  lemma FileOfChild(children: Listing, i: nat)
    requires i < |children| && children[i].node.File?
    ensures HasFile(children, [children[i].name], children[i].node.content)
  {
  }

  // A tree of sound children in which files lie below the two kinds only.
  lemma GoodTree(children: Listing)
    requires WellNamed(children) && Regular(children)
    requires forall p, content :: HasFile(children, p, content) ==> |p| >= 2
    ensures GoodRoot(Directory(children))
  {
    forall kind: string
      ensures GoodKind(children, kind)
    {
      if ChildOf(children, kind).Some? {
        var i := FoundChild(children, kind);
        SoundChild(children, kind);
        if children[i].node.File? { FileOfChild(children, i); }
      }
    }
  }

  /** Restoring a backup gives the media root back: the archive of a good media root, once accepted, can
      be unpacked, and the tree that is published holds exactly the files the root held. It is a good
      media root itself, so a backup of it collects the same files again. */
  lemma RestoreGivesBack(host: Host, header: Header, dump: Octets, root: Node, zip: seq<Member>)
    requires SoundHost(host) && GoodRoot(root) && CreateBackup(host, header, dump, root) == Some(zip)
    requires ValidateZip(host, zip).Some?
    ensures Extract(zip, ValidateZip(host, zip).value).Some?
    ensures var restored := RestoredTree(host, zip);
      && (forall p, content :: HasFile(restored.children, p, content) <==> HasMedia(root, p, content))
      && GoodRoot(restored) && CollectMedia(restored).Some? && CollectMedia(root).Some?
      && (forall f :: f in CollectMedia(restored).value <==> f in CollectMedia(root).value)
  {
    hide SoundHost, GoodRoot, CreateBackup, ValidateZip, Extract, SafeEntries, WellNamed, Regular, StagedMedia, Free,
      Unobstructed, HasFile, CollectMedia, GoodFound;
    var zip' := BackupThenRestore(host, header, dump, root);
    var entries := ValidateZip(host, zip).value;
    AcceptedAreSafe(host, zip);
    StagedIsUnpacked(zip, entries);
    var t, children := Extract(zip, entries).value, StagedMedia(zip, entries);
    forall p, content
      ensures HasFile(children, p, content) <==> HasMedia(root, p, content)
    {
      DropMedia(p);
      assert RestoredAt(root, dump, t, ["media"] + p, content);
    }
    GoodTree(children);
    MediaCollected(root);
    MediaCollected(Directory(children));
  }
}
