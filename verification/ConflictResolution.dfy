/** `resolve`: settling one recorded conflict in the working tree. */
module ConflictResolution {
  import opened Options
  import opened Paths
  import opened FileTree
  import opened Combination
  import ApplyTree

  datatype ResolveResult = Resolved | ChooseExactlyOne | NoConflict | InvalidRecord | UnsafePath | IoError

  // ---------------------------------------------------------------- file-system calls

  /** `remove_file` or `remove_dir_all`, or nothing if the path is absent. */
  ghost predicate Removes(t: Tree, p: Path, t': Tree) {
    forall q :: Get(t', q) == (if AtOrUnder(p, q) then None else Get(t, q))
  }

  /** The subtree at `to` gives way to the one at `from`. */
  ghost predicate Renames(t: Tree, from: Path, to: Path, t': Tree) {
    forall q ::
      Get(t', q) == (if AtOrUnder(to, q) then Get(t, Rebase(to, from, q))
                     else if AtOrUnder(from, q) then None
                     else Get(t, q))
  }

  predicate ParentExists(t: Tree, p: Path) {
    var parent := ApplyTree.Parent(p);
    parent.Some? ==> parent.value in t && t[parent.value].DirNode?
  }

  method RemoveConflictPath(t: Tree, p: Path) returns (ok: bool, t': Tree)
    requires Rooted(t)
    ensures ok <==> !FileAbove(t, p)
    ensures ok ==> Removes(t, p, t')
    ensures !ok ==> t' == t
  {
    ok, t' := true, t;
    if p in t {
      t' := map q | q in t && !AtOrUnder(p, q) :: t[q];
    } else if FileAbove(t, p) {
      ok := false;
    }
  }

  method Rename(t: Tree, from: Path, to: Path) returns (ok: bool, t': Tree)
    requires Rooted(t) && to !in t && !AtOrUnder(from, to) && !Under(to, from)
    ensures ok <==> from in t && ParentExists(t, to)
    ensures ok ==> Renames(t, from, to, t')
    ensures !ok ==> t' == t
  {
    t' := t;
    ok := from in t && ParentExists(t, to);
    if ok {
      var moved := set q | q in t && AtOrUnder(from, q) :: Rebase(from, to, q);
      forall q ensures q in moved <==> AtOrUnder(to, q) && Rebase(to, from, q) in t {
        if q in moved {
          var x :| x in t && AtOrUnder(from, x) && q == Rebase(from, to, x);
          RebaseRoundTrip(from, to, x);
        }
        if AtOrUnder(to, q) {
          RebaseRoundTrip(to, from, q);
          assert AtOrUnder(from, Rebase(to, from, q));
        }
      }
      t' := map q | q in (t.Keys - set q | q in t && AtOrUnder(from, q)) + moved ::
        if q in moved then t[Rebase(to, from, q)] else t[q];
      assert forall q | AtOrUnder(to, q) :: q !in t && !AtOrUnder(from, q) by {
        forall q | AtOrUnder(to, q) ensures q !in t && !AtOrUnder(from, q) {
          if AtOrUnder(from, q) { AncestorsAreLinear(from, to, q); }
        }
      }
    }
  }

  // ---------------------------------------------------------------- resolve

  /** The checks on a record read back from the saved state. */
  predicate RecordOk(path: Path, record: ConflictRecord) {
    var copy := record.remoteCopyPath;
    record.localCopyPath == path && copy != path && !Under(path, copy) && !Under(copy, path)
  }

  /** What the file system demands of the chosen side. */
  predicate Possible(t: Tree, path: Path, record: ConflictRecord, keepRemote: bool) {
    if keepRemote then
      && !FileAbove(t, path)
      && (record.remoteDeleted || (record.remoteCopyPath in t && ParentExists(t, path)))
    else
      record.remoteDeleted || !FileAbove(t, record.remoteCopyPath)
  }

  /** Keeping the remote side moves its copy into place, or removes the path if the remote had deleted
      it. Keeping the local side removes the copy. */
  ghost predicate Settles(t: Tree, path: Path, record: ConflictRecord, keepRemote: bool, t': Tree) {
    if keepRemote && record.remoteDeleted then Removes(t, path, t')
    else if keepRemote then Renames(t, record.remoteCopyPath, path, t')
    else if record.remoteDeleted then t' == t
    else Removes(t, record.remoteCopyPath, t')
  }

  class Repository {
    var tree: Tree
    var conflicts: map<Path, ConflictRecord>

    method Resolve(path: Path, keepLocal: bool, keepRemote: bool) returns (r: ResolveResult)
      requires Rooted(tree)
      modifies this
      ensures r == ChooseExactlyOne <==> keepLocal == keepRemote
      ensures r == NoConflict <==> keepLocal != keepRemote && path !in old(conflicts)
      ensures r == InvalidRecord <==>
        keepLocal != keepRemote && path in old(conflicts) && !RecordOk(path, old(conflicts)[path])
      ensures r == UnsafePath <==>
        && keepLocal != keepRemote && path in old(conflicts) && RecordOk(path, old(conflicts)[path])
        && !(Safe(path) && Safe(old(conflicts)[path].remoteCopyPath))
      ensures r == Resolved <==>
        && keepLocal != keepRemote && path in old(conflicts) && RecordOk(path, old(conflicts)[path])
        && Safe(path) && Safe(old(conflicts)[path].remoteCopyPath)
        && Possible(old(tree), path, old(conflicts)[path], keepRemote)
      ensures r == Resolved ==>
        Settles(old(tree), path, old(conflicts)[path], keepRemote, tree) && conflicts == old(conflicts) - {path}
      ensures r in {InvalidRecord, UnsafePath, IoError, Resolved} ==>
        path in old(conflicts) && (r == InvalidRecord <==>
          || old(conflicts)[path].localCopyPath != path || old(conflicts)[path].remoteCopyPath == path
          || Under(path, old(conflicts)[path].remoteCopyPath) || Under(old(conflicts)[path].remoteCopyPath, path))
      ensures r in {IoError, Resolved} ==>
        path in old(conflicts) && (r == IoError <==>
          var copy, t := old(conflicts)[path].remoteCopyPath, old(tree);
          if old(conflicts)[path].remoteDeleted
          then keepRemote && exists a :: Under(a, path) && a in t && t[a].FileNode?
          else if keepRemote then copy !in t || exists a :: Under(a, path) && Get(t, a) != Some(DirNode)
          else exists a :: Under(a, copy) && a in t && t[a].FileNode?)
      ensures r != Resolved ==> conflicts == old(conflicts)
      ensures r != Resolved && r != IoError ==> tree == old(tree)
    {
      if keepLocal == keepRemote {
        return ChooseExactlyOne;
      }
      if path !in conflicts {
        return NoConflict;
      }
      var record := conflicts[path];
      var copy := record.remoteCopyPath;
      if record.localCopyPath != path || copy == path || Under(path, copy) || Under(copy, path) {
        return InvalidRecord;
      }
      if !Safe(path) || !Safe(copy) {
        return UnsafePath;
      }
      var ok := true;
      ghost var t := tree;
      ParentOrNothing(t, path);
      if keepRemote {
        if record.remoteDeleted {
          ok, tree := RemoveConflictPath(tree, path);
        } else if copy !in tree {
          ok := false;
        } else {
          ok, tree := RemoveConflictPath(tree, path);
          if ok {
            RemovalKeeps(t, path, copy, tree);
            ok, tree := Rename(tree, copy, path);
          }
        }
      } else if !record.remoteDeleted {
        ok, tree := RemoveConflictPath(tree, copy);
      }
      if !ok {
        return IoError;
      }
      conflicts := conflicts - {path};
      r := Resolved;
    }
  }

  /** Either every directory above the path exists, or its parent does not. */
  lemma ParentOrNothing(t: Tree, p: Path)
    requires Rooted(t)
    ensures ParentExists(t, p) <==> forall a | Under(a, p) :: Get(t, a) == Some(DirNode)
  {
    ApplyTree.ParentIsNearest(p);
    var parent := ApplyTree.Parent(p);
    if parent.Some? && ParentExists(t, p) {
      forall a | Under(a, p) ensures Get(t, a) == Some(DirNode) { assert AtOrUnder(a, parent.value); }
    }
  }

  /** Clearing a path leaves its parent, and everything not below it, in place. */
  lemma RemovalKeeps(t: Tree, path: Path, copy: Path, t': Tree)
    requires Rooted(t) && Removes(t, path, t') && !AtOrUnder(path, copy) && !Under(copy, path)
    ensures Rooted(t') && Get(t', copy) == Get(t, copy) && path !in t'
    ensures ParentExists(t', path) <==> ParentExists(t, path)
    ensures forall t'' | Renames(t', copy, path, t'') :: Renames(t, copy, path, t'')
  {
    ApplyTree.ParentIsNearest(path);
    assert AtOrUnder(path, path);
    forall p, a | p in t' && Under(a, p) ensures a in t' && t'[a].DirNode? {
      assert Get(t', p) == Get(t, p);
      if AtOrUnder(path, a) { AtOrUnderTransitive(path, a, p); }
      assert Get(t', a) == Get(t, a);
    }
    var parent := ApplyTree.Parent(path);
    if parent.Some? { assert Get(t', parent.value) == Get(t, parent.value); }
    assert Get(t', path) == None;
    forall t'' | Renames(t', copy, path, t'') ensures Renames(t, copy, path, t'') {
      forall q
        ensures Get(t'', q) == (if AtOrUnder(path, q) then Get(t, Rebase(path, copy, q))
                                else if AtOrUnder(copy, q) then None
                                else Get(t, q))
      {
        if AtOrUnder(path, q) {
          RebaseRoundTrip(path, copy, q);
          var x := Rebase(path, copy, q);
          if AtOrUnder(path, x) { AncestorsAreLinear(path, copy, x); }
          assert Get(t', x) == Get(t, x);
        } else {
          assert Get(t', q) == Get(t, q);
        }
      }
    }
  }

  /** Settling a conflict leaves a proper tree. */
  lemma SettlingKeepsRooted(t: Tree, path: Path, record: ConflictRecord, keepRemote: bool, t': Tree)
    requires Rooted(t) && RecordOk(path, record) && Possible(t, path, record, keepRemote)
    requires Settles(t, path, record, keepRemote, t')
    ensures Rooted(t')
  {
    if keepRemote && !record.remoteDeleted {
      RenamingKeepsRooted(t, record.remoteCopyPath, path, t');
    } else if keepRemote {
      RemovingKeepsRooted(t, path, t');
    } else if !record.remoteDeleted {
      RemovingKeepsRooted(t, record.remoteCopyPath, t');
    }
  }

  lemma RemovingKeepsRooted(t: Tree, path: Path, t': Tree)
    requires Rooted(t) && Removes(t, path, t')
    ensures Rooted(t')
  {
    forall p, a | p in t' && Under(a, p) ensures a in t' && t'[a].DirNode? {
      assert Get(t', p) == Get(t, p);
      if AtOrUnder(path, a) { AtOrUnderTransitive(path, a, p); }
      assert Get(t', a) == Get(t, a);
    }
  }

  lemma AncestorsExist(t: Tree, p: Path, a: Path)
    requires Rooted(t) && ParentExists(t, p) && Under(a, p)
    ensures Get(t, a) == Some(DirNode)
  {
    ApplyTree.ParentIsNearest(p);
  }

  lemma RenamingKeepsRooted(t: Tree, from: Path, to: Path, t': Tree)
    requires Rooted(t) && Renames(t, from, to, t') && ParentExists(t, to) && !AtOrUnder(from, to) && !Under(to, from)
    ensures Rooted(t')
  {
    forall p, a | p in t' && Under(a, p) ensures Get(t', a) == Some(DirNode) {
      assert Get(t', p).Some?;
      if AtOrUnder(to, a) {
        RebaseUnder(to, from, a, p);
      } else if AtOrUnder(to, p) {
        AncestorsAreLinear(to, a, p);
        AncestorsExist(t, to, a);
        if AtOrUnder(from, a) { AtOrUnderTransitive(from, a, to); }
      } else if AtOrUnder(from, a) {
        AtOrUnderTransitive(from, a, p);
      }
    }
  }
}
