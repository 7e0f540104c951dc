/**
 The directory synchroniser (cc-deck/internal/profile/configdir.go:14-107): links the entries of the default directory
 into a profile's configuration directory, except the isolated ones. Every file operation may fail.
 */
module ConfigDir {
  import opened Wrappers

  datatype Node = Link(target: string) | Real(content: int)

  type Dir = map<string, Node>

  datatype Listing = Missing | Unreadable | Entries(names: seq<string>)

  datatype Stat = Absent | Present(isLink: bool) | StatFailed

  datatype Outcome = Ok(warnings: seq<string>) | Failed(warnings: seq<string>)

  function TargetOf(base: string, name: string): string {
    base + "/" + name
  }

  // ---- What a run is for ----

  /** What becomes of one entry of the default directory. */
  function Synced(node: Option<Node>, target: string, isIsolated: bool): Option<Node> {
    if isIsolated then if node == Some(Link(target)) then None else node
    else if node.Some? && node.value.Real? then node
    else Some(Link(target))
  }

  /**
   The directory after some entries are handled. The names in unread are isolated entries whose link could not be read:
   the code passes over the failure and leaves them alone.
   */
  ghost predicate IsSynced(
    before: Dir, after: Dir, names: seq<string>, base: string, isolated: seq<string>, unread: set<string>
  ) {
    forall name: string :: Get(after, name) ==
      if name in names && name !in unread then Synced(Get(before, name), TargetOf(base, name), name in isolated)
      else Get(before, name)
  }

  ghost predicate WereUnread(before: Dir, base: string, isolated: seq<string>, unread: set<string>) {
    forall name :: name in unread ==> name in isolated && Get(before, name) == Some(Link(TargetOf(base, name)))
  }

  function Warns(dir: Dir, isolated: seq<string>, name: string): bool {
    name !in isolated && name in dir && dir[name].Real?
  }

  function Warnings(dir: Dir, names: seq<string>, isolated: seq<string>): seq<string> {
    if names == [] then []
    else
      var n := |names| - 1;
      Warnings(dir, names[..n], isolated) + if Warns(dir, isolated, names[n]) then [names[n]] else []
  }

  /** Real files and directories are the same after as before. */
  predicate KeepsRealFiles(before: Dir, after: Dir) {
    forall name :: name in before && before[name].Real? ==> name in after && after[name] == before[name]
  }

  // ---- The run ----

  datatype EntryResult = Done | Warned | Broken

  class ConfigDirectory {
    var made: bool
    var dir: Dir

    method MkdirAll() returns (ok: bool)
      modifies this`made
      ensures ok ==> made
      ensures old(made) ==> made
    {
      ok := *;
      made := made || ok;
    }

    method Readlink(name: string) returns (target: Option<string>)
      ensures target.Some? ==> Get(dir, name) == Some(Link(target.value))
    {
      target := None;
      var ok: bool := *;
      if ok && name in dir && dir[name].Link? {
        target := Some(dir[name].target);
      }
    }

    method Lstat(name: string) returns (stat: Stat)
      ensures stat == Absent ==> name !in dir
      ensures stat.Present? ==> name in dir && stat.isLink == dir[name].Link?
    {
      var ok: bool := *;
      stat := if !ok then StatFailed else if name in dir then Present(dir[name].Link?) else Absent;
    }

    method Remove(name: string) returns (ok: bool)
      modifies this`dir
      ensures dir == if ok then old(dir) - {name} else old(dir)
    {
      ok := *;
      if ok {
        dir := dir - {name};
      }
    }

    method Symlink(target: string, name: string) returns (ok: bool)
      modifies this`dir
      ensures dir == if ok then old(dir)[name := Link(target)] else old(dir)
      ensures ok ==> name !in old(dir)
    {
      ok := *;
      ok := ok && name !in dir;
      if ok {
        dir := dir[name := Link(target)];
      }
    }

    /** One entry. A failure leaves it alone, or without its link if the old link was removed and not made again. */
    method SyncEntry(name: string, target: string, isIsolated: bool) returns (r: EntryResult, ghost unread: bool)
      modifies this`dir
      ensures forall other: string :: other != name ==> Get(dir, other) == Get(old(dir), other)
      ensures r != Broken && !unread ==> Get(dir, name) == Synced(Get(old(dir), name), target, isIsolated)
      ensures unread ==> isIsolated && dir == old(dir) && Get(dir, name) == Some(Link(target))
      ensures r == Warned <==> r != Broken && !isIsolated && name in old(dir) && old(dir)[name].Real?
      ensures r == Broken ==> LeftAtFailure(old(dir), dir, name)
    {
      unread := false;
      if isIsolated {
        var existing := Readlink(name);
        if existing == Some(target) {
          var removed := Remove(name);
          if !removed {
            return Broken, false;
          }
        }
        unread := existing.None? && Get(dir, name) == Some(Link(target));
        return Done, unread;
      }
      var info := Lstat(name);
      if info == Absent {
        var linked := Symlink(target, name);
        return if linked then Done else Broken, false;
      }
      if info == StatFailed {
        return Broken, false;
      }
      if info.isLink {
        var existing := Readlink(name);
        if existing.None? {
          return Broken, false;
        }
        if existing == Some(target) {
          return Done, false;
        }
        var removed := Remove(name);
        if !removed {
          return Broken, false;
        }
        var linked := Symlink(target, name);
        return if linked then Done else Broken, false;
      }
      r := Warned;
    }

    /**
     The whole run. A run without an error has synchronised every entry of the default directory, up to unread links;
     a run with an error has stopped at an entry, with the ones before synchronised and the ones after untouched.
     */
    method PrepareSharedDir(listing: Listing, base: string, isolated: seq<string>)
      returns (r: Outcome, ghost unread: set<string>)
      modifies this
      ensures r.Ok? ==> made
      ensures KeepsRealFiles(old(dir), dir)
      ensures listing == Missing ==> dir == old(dir) && r.warnings == []
      ensures listing == Unreadable ==> dir == old(dir) && r == Failed([])
      ensures WereUnread(old(dir), base, isolated, unread)
      ensures r.Ok? && listing.Entries? ==>
        && IsSynced(old(dir), dir, listing.names, base, isolated, unread)
        && r.warnings == Warnings(old(dir), listing.names, isolated)
      ensures r.Failed? ==>
        || (dir == old(dir) && r.warnings == [])
        || (listing.Entries? && StoppedEarly(old(dir), dir, listing.names, base, isolated, unread, r.warnings))
    {
      unread := {};
      if listing == Missing {
        var ok := MkdirAll();
        return if ok then Ok([]) else Failed([]), {};
      }
      var ok := MkdirAll();
      if !ok || listing == Unreadable {
        return Failed([]), {};
      }
      var entries := listing.names;
      var warnings: seq<string> := [];
      ghost var before := dir;
      for i := 0 to |entries|
        invariant made
        invariant IsSynced(before, dir, entries[..i], base, isolated, unread)
        invariant warnings == Warnings(before, entries[..i], isolated)
        invariant WereUnread(before, base, isolated, unread)
      {
        var name := entries[i];
        ghost var at := dir;
        ghost var passed;
        var result;
        result, passed := SyncEntry(name, TargetOf(base, name), name in isolated);
        if result == Broken {
          StopHere(before, at, dir, entries, i, base, isolated, unread, warnings);
          return Failed(warnings), unread;
        }
        SyncStep(before, at, dir, entries, i, base, isolated, unread, passed);
        if result == Warned {
          warnings := warnings + [name];
        }
        unread := if passed then unread + {name} else unread - {name};
      }
      assert entries[..|entries|] == entries;
      SyncKeepsRealFiles(before, dir, entries, base, isolated, unread);
      r := Ok(warnings);
    }
  }

  /** A failure at an entry leaves the directory as it was, or without the entry's old link. */
  ghost predicate LeftAtFailure(at: Dir, after: Dir, name: string) {
    after == at || (name in at && at[name].Link? && after == at - {name})
  }

  ghost predicate StoppedEarly(
    before: Dir, after: Dir, names: seq<string>, base: string, isolated: seq<string>, unread: set<string>,
    warnings: seq<string>
  ) {
    exists i, at: Dir ::
      && 0 <= i < |names|
      && IsSynced(before, at, names[..i], base, isolated, unread)
      && LeftAtFailure(at, after, names[i])
      && warnings == Warnings(before, names[..i], isolated)
  }

  lemma StopHere(
    before: Dir, at: Dir, after: Dir, names: seq<string>, i: nat, base: string, isolated: seq<string>,
    unread: set<string>, warnings: seq<string>
  )
    requires i < |names| && IsSynced(before, at, names[..i], base, isolated, unread)
    requires LeftAtFailure(at, after, names[i]) && warnings == Warnings(before, names[..i], isolated)
    ensures StoppedEarly(before, after, names, base, isolated, unread, warnings) && KeepsRealFiles(before, after)
  {
    SyncKeepsRealFiles(before, at, names[..i], base, isolated, unread);
  }

  lemma SyncKeepsRealFiles(
    before: Dir, after: Dir, names: seq<string>, base: string, isolated: seq<string>, unread: set<string>
  )
    requires IsSynced(before, after, names, base, isolated, unread)
    ensures KeepsRealFiles(before, after)
  {
    forall name | name in before && before[name].Real? ensures Get(after, name) == Get(before, name) {
    }
  }

  /** One entry more. */
  lemma SyncStep(
    before: Dir, at: Dir, after: Dir, names: seq<string>, i: nat, base: string, isolated: seq<string>,
    unread: set<string>, passed: bool
  )
    requires i < |names| && IsSynced(before, at, names[..i], base, isolated, unread)
    requires WereUnread(before, base, isolated, unread)
    requires var name := names[i];
      var target := TargetOf(base, name);
      && (forall other: string :: other != name ==> Get(after, other) == Get(at, other))
      && (if passed then name in isolated && after == at && Get(at, name) == Some(Link(target))
          else Get(after, name) == Synced(Get(at, name), target, name in isolated))
    ensures IsSynced(
      before, after, names[..i + 1], base, isolated, if passed then unread + {names[i]} else unread - {names[i]})
    ensures passed ==> WereUnread(before, base, isolated, unread + {names[i]})
    ensures Warns(at, isolated, names[i]) == Warns(before, isolated, names[i])
    ensures Warnings(before, names[..i + 1], isolated) ==
      Warnings(before, names[..i], isolated) + if Warns(before, isolated, names[i]) then [names[i]] else []
  {
    assert names[..i + 1] == names[..i] + [names[i]] && names[..i + 1][..i] == names[..i];
    assert Get(before, names[i]) == Get(before, names[i]) && Get(at, names[i]) == Get(at, names[i]);
  }

  // ---- What the user of the profile sees ----

  lemma {:induction false} WarningsMembers(dir: Dir, names: seq<string>, isolated: seq<string>, name: string)
    ensures name in Warnings(dir, names, isolated) <==> name in names && Warns(dir, isolated, name)
  {
    if names != [] {
      WarningsMembers(dir, names[..|names| - 1], isolated, name);
      assert names == names[..|names| - 1] + [names[|names| - 1]];
    }
  }

  /**
   After a run without an error, an entry of the default directory that is isolated is linked to its default target
   exactly when the link was there and could not be read; any other entry is linked to it, or is a real file that the
   warnings name. Names that the default directory does not have are as before.
   */
  lemma EntriesAfterRun(
    before: Dir, after: Dir, names: seq<string>, base: string, isolated: seq<string>, unread: set<string>, name: string
  )
    requires IsSynced(before, after, names, base, isolated, unread) && WereUnread(before, base, isolated, unread)
    ensures name in names && name in isolated ==>
      (Get(after, name) == Some(Link(TargetOf(base, name))) <==> name in unread)
    ensures name in names && name !in isolated ==>
      if name in Warnings(before, names, isolated)
      then name in before && before[name].Real? && Get(after, name) == Get(before, name)
      else Get(after, name) == Some(Link(TargetOf(base, name)))
    ensures name !in names ==> Get(after, name) == Get(before, name)
  {
    WarningsMembers(before, names, isolated, name);
    assert Get(after, name) == Get(after, name);
  }

  /**
   A second run warns about the same names, and changes nothing exactly when it too cannot read the links that the first
   run could not read; in particular it changes nothing when the first run read every link.
   */
  lemma SecondRunChangesNothing(
    before: Dir, after: Dir, again: Dir, names: seq<string>, base: string, isolated: seq<string>,
    unread: set<string>, unreadAgain: set<string>
  )
    requires IsSynced(before, after, names, base, isolated, unread) && WereUnread(before, base, isolated, unread)
    requires IsSynced(after, again, names, base, isolated, unreadAgain)
    ensures Warnings(after, names, isolated) == Warnings(before, names, isolated)
    ensures again == after <==> forall name :: name in unread && name in names ==> name in unreadAgain
  {
    if forall name :: name in unread && name in names ==> name in unreadAgain {
      SameGets(again, after);
    } else {
      var name :| name in unread && name in names && name !in unreadAgain;
      assert Get(again, name) != Get(after, name);
    }
    forall name: string ensures Warns(after, isolated, name) == Warns(before, isolated, name) {
      assert Get(after, name) == Get(after, name);
    }
    SameWarnings(before, after, names, isolated);
  }

  lemma SameGets(a: Dir, b: Dir)
    requires forall name: string :: Get(a, name) == Get(b, name)
    ensures a == b
  {
    assert forall name: string :: name in a <==> Get(a, name).Some?;
    assert forall name: string :: name in b <==> Get(b, name).Some?;
  }

  lemma {:induction false} SameWarnings(a: Dir, b: Dir, names: seq<string>, isolated: seq<string>)
    requires forall name: string :: Warns(a, isolated, name) == Warns(b, isolated, name)
    ensures Warnings(a, names, isolated) == Warnings(b, names, isolated)
  {
    if names != [] {
      SameWarnings(a, b, names[..|names| - 1], isolated);
    }
  }
}
