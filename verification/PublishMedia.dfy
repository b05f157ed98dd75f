/** Putting a staged media tree in the place of the old one, with a rollback. */
module PublishMedia {
  import opened Wrappers
  import opened MediaBackup

  /** How publishing ends: normally, with an error before the old tree is cleaned up, or with an
      error while it is cleaned up. */
  datatype Outcome = Returned | Raised | CleanupRaised

  /** The directory the media target lives in, by path, with everything that stands there. Each file
      system step asks `fails` whether it raises instead of taking effect. */
  class FileSystem {
    const fails: nat -> bool
    var step: nat
    var entries: map<string, Node>

    constructor (fails: nat -> bool, entries: map<string, Node>)
      ensures this.fails == fails && this.entries == entries && step == 0
    {
      this.fails := fails;
      this.entries := entries;
      step := 0;
    }

    // Takes the next step's luck.
    method Attempt() returns (ok: bool)
      modifies this`step
      ensures step == old(step) + 1 && ok == !fails(old(step))
    {
      ok := !fails(step);
      step := step + 1;
    }

    method MakeTemporary(path: string) returns (ok: bool)
      modifies this
      ensures step == old(step) + 1 && ok == !fails(old(step))
      ensures entries == if ok then old(entries)[path := Directory([])] else old(entries)
    {
      ok := Attempt();
      if ok { entries := entries[path := Directory([])]; }
    }

    method RemoveDirectory(path: string) returns (ok: bool)
      modifies this
      ensures step == old(step) + 1 && ok == !fails(old(step))
      ensures entries == if ok then old(entries) - {path} else old(entries)
    {
      ok := Attempt();
      if ok { entries := entries - {path}; }
    }

    // Removing a tree; when it fails, some of the tree may be gone already.
    method RemoveTree(path: string) returns (ok: bool)
      requires path in entries
      modifies this
      ensures step == old(step) + 1 && ok == !fails(old(step))
      ensures ok ==> entries == old(entries) - {path}
      ensures !ok ==> path in entries && entries == old(entries)[path := entries[path]]
    {
      ok := Attempt();
      if ok {
        entries := entries - {path};
      } else {
        var remains: Node := *;
        entries := entries[path := remains];
      }
    }

    // `os.replace`: moves a tree to a free path.
    method Replace(source: string, destination: string) returns (ok: bool)
      requires source in entries && source != destination
      modifies this
      ensures step == old(step) + 1 && ok == !fails(old(step))
      ensures entries == if ok then (old(entries) - {source})[destination := old(entries)[source]] else old(entries)
    {
      ok := Attempt();
      if ok { entries := (entries - {source})[destination := entries[source]]; }
    }

    // Opening the parent directory, forcing it to disk and closing it again.
    method SyncParent() returns (ok: bool)
      modifies this`step
      ensures step == old(step) + if fails(old(step)) then 1 else 3
      ensures ok <==> forall n | old(step) <= n < step :: !fails(n)
    {
      var reached := Attempt();
      if !reached { return false; }
      var synced := Attempt();
      var closed := Attempt();
      ok := synced && closed;
    }

    // Undoes a half-done publication; these steps are assumed to succeed.
    method RollBack(target: string, saved: Option<string>)
      requires saved.Some? ==> saved.value != target
      modifies this`entries
      ensures saved.Some? && saved.value in old(entries) ==>
        entries == (old(entries) - {target, saved.value})[target := old(entries)[saved.value]]
      ensures saved.None? || saved.value !in old(entries) ==> entries == old(entries) - {target}
    {
      entries := entries - {target};
      if saved.Some? && saved.value in entries {
        entries := (entries - {saved.value})[target := entries[saved.value]];
      }
    }

    // Every step taken since `from` went well.
    predicate AllWell(from: nat)
      reads this
    {
      forall n | from <= n < step :: !fails(n)
    }

    // Moves an existing target to a fresh name.
    method SetAside(target: string, temporary: string) returns (ok: bool, saved: Option<string>)
      requires temporary !in entries && temporary != target
      modifies this
      ensures old(step) <= step && (ok <==> AllWell(old(step)))
      ensures ok && target in old(entries) ==>
        && saved == Some(temporary)
        && entries == (old(entries) - {target})[temporary := old(entries)[target]]
      ensures ok && target !in old(entries) ==> saved.None? && entries == old(entries)
      ensures ok ==> step == old(step) + if target in old(entries) then 3 else 0
      ensures !ok ==> forall path :: path != temporary ==> Lookup(entries, path) == Lookup(old(entries), path)
    {
      ok, saved := true, None;
      if target in entries {
        ok := MakeTemporary(temporary);
        if ok { ok := RemoveDirectory(temporary); }
        if ok { ok := Replace(target, temporary); }
        saved := Some(temporary);
      }
    }

    // Moves the staged tree to the target, or puts back what was set aside.
    method Place(stage: string, target: string, saved: Option<string>) returns (ok: bool)
      requires stage in entries && stage != target && target !in entries
      requires saved.Some? ==> saved.value in entries && saved.value != target && saved.value != stage
      modifies this
      ensures old(step) <= step && (ok <==> AllWell(old(step)))
      ensures ok ==> step == old(step) + 4 && entries == (old(entries) - {stage})[target := old(entries)[stage]]
      ensures !ok ==> Lookup(entries, target) == if saved.Some? then Some(old(entries)[saved.value]) else None
      ensures !ok ==> forall path :: path != stage && path != target && Some(path) != saved ==>
        Lookup(entries, path) == Lookup(old(entries), path)
    {
      ok := Replace(stage, target);
      if ok { ok := SyncParent(); }
      if !ok { RollBack(target, saved); }
    }

    // `temporary` is the name `mkdtemp` chooses, which nothing holds.
    method Publish(stage: string, target: string, temporary: string, parentIsDirectory: bool) returns (outcome: Outcome)
      requires stage in entries && temporary !in entries
      requires stage != target && temporary != target && temporary != stage
      modifies this
      // It raised before the last cleanup: the target holds what it held before.
      ensures outcome.Raised? ==> Lookup(entries, target) == Lookup(old(entries), target)
      // It returned, or only the cleanup raised: the target holds the staged tree, which has moved.
      ensures !outcome.Raised? ==> target in entries && entries[target] == old(entries)[stage] && stage !in entries
      ensures outcome.Returned? ==> temporary !in entries
      // Nothing else is touched.
      ensures forall path :: path != stage && path != target && path != temporary ==>
        Lookup(entries, path) == Lookup(old(entries), path)
      // It returns exactly when no step fails, and takes all of them: the move, the three that force it to
      // disk, and with an old tree the three that set it aside and the one that removes it.
      ensures old(step) <= step && (outcome.Returned? <==> parentIsDirectory && AllWell(old(step)))
      ensures outcome.Returned? ==> step == old(step) + if target in old(entries) then 8 else 4
    {
      if !parentIsDirectory { return Raised; }
      var ok, saved := SetAside(target, temporary);
      if !ok { return Raised; }
      ghost var middle := step;
      ok := Place(stage, target, saved);
      if !ok {
        assert exists n :: middle <= n < step && fails(n);
        return Raised;
      }
      if saved.Some? {
        var cleaned := RemoveTree(saved.value);
        if !cleaned { return CleanupRaised; }
      }
      return Returned;
    }
  }
}
