/**
 Applying every file of a diff to a staged copy of the source tree, and the check of
 what changed (app/agent/static_checks.py:414-442, 654-736, 933-1002).
 */
module StagedTree {
  import opened Wrappers
  import opened Utf8
  import opened UnifiedDiff
  import opened DiffShape
  import opened SourceText
  import opened PatchApply
  import opened PatchLoop

  datatype Entry = Directory | File(data: seq<byte>)

  /** A tree by relative path. */
  type Tree = map<string, Entry>

  const MAX_PATH_BYTES := 1024

  /** The directories on the way to a path. */
  function Ancestors(path: string): set<string> {
    set i | 0 < i < |path| && path[i] == '/' :: path[..i]
  }

  /** The bytes of the regular file at a path. */
  function FileAt(tree: Tree, path: string): Option<seq<byte>> {
    if path in tree && tree[path].File? then Some(tree[path].data) else None
  }

  function Directories(tree: Tree): set<string> {
    set path | path in tree && tree[path].Directory?
  }

  // ---------------------------------------------------------------- filesystem operations

  function WithDirectories(tree: Tree, directories: set<string>): Tree {
    tree + (map d | d in directories :: Directory)
  }

  function Written(tree: Tree, path: string, data: seq<byte>): Tree {
    WithDirectories(tree, Ancestors(path))[path := File(data)]
  }

  predicate CanWrite(tree: Tree, path: string, create: bool) {
    && |Encode(path)| <= MAX_PATH_BYTES
    && (forall d :: d in Ancestors(path) && d in tree ==> tree[d].Directory?)
    && if create then path !in tree else path in tree && tree[path].File?
  }

  predicate CanDelete(tree: Tree, path: string) {
    && |Encode(path)| <= MAX_PATH_BYTES
    && (forall d :: d in Ancestors(path) ==> d in tree && tree[d].Directory?)
    && path in tree && tree[path].File?
  }

  class Staging {
    var tree: Tree

    constructor (pristine: Tree)
      ensures tree == pristine
    {
      tree := pristine;
    }

    /** Open the parent of a path, creating the directories that are missing on the way. */
    method OpenParent(path: string) returns (ok: bool)
      modifies this
      ensures ok <==> forall d :: d in Ancestors(path) && d in old(tree) ==> old(tree)[d].Directory?
      ensures ok ==> tree == WithDirectories(old(tree), Ancestors(path))
    {
      hide Ancestors, PassedBy, WithDirectories;
      var i := 0;
      PassedAll(path);
      WithNone(tree);
      while i < |path|
        invariant 0 <= i <= |path|
        invariant forall d :: d in PassedBy(path, i) && d in old(tree) ==> old(tree)[d].Directory?
        invariant tree == WithDirectories(old(tree), PassedBy(path, i))
      {
        PassedStep(path, i);
        if i > 0 && path[i] == '/' {
          var directory := path[..i];
          WithMore(old(tree), PassedBy(path, i), directory);
          if directory in tree && tree[directory].File? {
            return false;
          }
          tree := tree[directory := Directory];
        }
        i := i + 1;
      }
      ok := true;
    }

    method WriteFile(path: string, data: seq<byte>, create: bool) returns (ok: bool)
      modifies this
      ensures ok <==> CanWrite(old(tree), path, create)
      ensures ok ==> tree == Written(old(tree), path, data)
    {
      if |Encode(path)| > MAX_PATH_BYTES {
        return false;
      }
      NotOwnAncestor(path);
      ok := OpenParent(path);
      if !ok {
        return;
      }
      if create {
        if path in tree {
          return false;
        }
      } else if path !in tree || tree[path].Directory? {
        return false;
      }
      tree := tree[path := File(data)];
    }

    method DeleteFile(path: string) returns (ok: bool)
      modifies this
      ensures ok <==> CanDelete(old(tree), path)
      ensures ok ==> tree == old(tree) - {path}
      ensures !ok ==> tree == old(tree)
    {
      ok := CanDelete(tree, path);
      if ok {
        tree := tree - {path};
      }
    }
  }

  /** Ancestors ending before index `i`. */
  ghost function PassedBy(path: string, i: nat): set<string>
    requires i <= |path|
  {
    set j | 0 < j < i && path[j] == '/' :: path[..j]
  }

  lemma PassedStep(path: string, i: nat)
    requires i < |path|
    ensures i > 0 && path[i] == '/' ==> PassedBy(path, i + 1) == PassedBy(path, i) + {path[..i]}
    ensures !(i > 0 && path[i] == '/') ==> PassedBy(path, i + 1) == PassedBy(path, i)
    ensures path[..i] !in PassedBy(path, i)
    ensures i > 0 && path[i] == '/' ==> path[..i] in Ancestors(path)
  {
    assert forall j :: 0 < j < i ==> |path[..j]| != |path[..i]|;
  }

  lemma PassedAll(path: string)
    ensures PassedBy(path, |path|) == Ancestors(path) && PassedBy(path, 0) == {}
  {
  }

  lemma WithNone(tree: Tree)
    ensures WithDirectories(tree, {}) == tree
  {
  }

  lemma WithMore(tree: Tree, directories: set<string>, d: string)
    requires d !in directories
    ensures WithDirectories(tree, directories)[d := Directory] == WithDirectories(tree, directories + {d})
    ensures d in WithDirectories(tree, directories) <==> d in tree
    ensures d in tree ==> WithDirectories(tree, directories)[d] == tree[d]
  {
  }

  lemma NotOwnAncestor(path: string)
    ensures path !in Ancestors(path)
  {
    assert forall j :: 0 < j < |path| ==> |path[..j]| != |path|;
  }

  // ---------------------------------------------------------------- the patch

  datatype PatchError = PatchConflict | FilesystemFailed

  predicate DistinctPaths(files: seq<FileDiff>) {
    forall i, j :: 0 <= i < j < |files| ==> files[i].path != files[j].path
  }

  /** The staged tree agrees with what applying one file gives. */
  ghost predicate FileStaged(pristine: Tree, staged: Tree, file: FileDiff) {
    && (file.path in pristine ==> pristine[file.path].File?)
    && match ApplyFile(file, FileAt(pristine, file.path))
       case Conflict => false
       case Deleted => FileAt(staged, file.path).None?
       case Content(data) => FileAt(staged, file.path) == Some(data)
  }

  /** A path that is short enough, below directories only. */
  ghost predicate Passable(staged: Tree, file: FileDiff) {
    |Encode(file.path)| <= 1024 && Ancestors(file.path) <= Directories(staged)
  }

  /** Files the diff does not name are byte for byte as before; directories are kept, and added only above named files. */
  ghost predicate OthersKept(pristine: Tree, staged: Tree, files: seq<FileDiff>) {
    && (forall path :: (forall file :: file in files ==> file.path != path) ==> FileAt(staged, path) == FileAt(pristine, path))
    && Directories(pristine) <= Directories(staged)
    && forall d :: d in Directories(staged) && d !in Directories(pristine) ==> exists file :: file in files && d in Ancestors(file.path)
  }

  ghost predicate Staged(pristine: Tree, staged: Tree, files: seq<FileDiff>) {
    && OthersKept(pristine, staged, files)
    && forall file :: file in files ==> FileStaged(pristine, staged, file)
  }

  /** `_apply_patch`. */
  method ApplyPatch(staging: Staging, pristine: Tree, files: seq<FileDiff>) returns (error: Option<PatchError>)
    requires staging.tree == pristine && DistinctPaths(files)
    requires forall file :: file in files ==> NamesFile(file)
    modifies staging
    ensures error.None? ==> Staged(pristine, staging.tree, files)
    ensures error.None? ==> forall file :: file in files ==>
              && (file.oldPath.None? <==> file.path !in pristine)
              && (file.newPath.None? <==> FileAt(staging.tree, file.path).None?)
    ensures error.None? ==> forall file :: file in files ==> Passable(staging.tree, file)
    ensures error == Some(PatchConflict) ==>
              exists file :: file in files && !Applies(pristine, file)
    ensures error == Some(FilesystemFailed) ==> exists file :: file in files && Hindered(pristine, files, file)
  {
    hide ApplyFile, FileStaged, OthersKept, CanWrite, CanDelete, Written, Ancestors, Hindered, Passable;
    NothingStaged(pristine);
    var i := 0;
    while i < |files|
      invariant 0 <= i <= |files|
      invariant Staged(pristine, staging.tree, files[..i])
      invariant forall file :: file in files[..i] ==> Passable(staging.tree, file)
    {
      var file := files[i];
      assert file in files && files[..i + 1] == files[..i] + [file];
      var existing := file.path in pristine;
      if existing && pristine[file.path].Directory? {
        return Some(PatchConflict);
      }
      var result := ApplyFilePatch(file, FileAt(pristine, file.path));
      ghost var before := staging.tree;
      if result.Conflict? {
        return Some(PatchConflict);
      }
      if result.Deleted? {
        var ok := staging.DeleteFile(file.path);
        if !ok {
          DeletedExists(file, FileAt(pristine, file.path));
          DeleteHindered(pristine, before, files, i);
          return Some(FilesystemFailed);
        }
        DeleteStages(pristine, before, files[..i], file);
      } else {
        var ok := staging.WriteFile(file.path, result.data, !existing);
        if !ok {
          WriteHindered(pristine, before, files, i);
          return Some(FilesystemFailed);
        }
        WriteStages(pristine, before, files[..i], file, result.data, !existing);
      }
      i := i + 1;
    }
    assert files[..i] == files;
    error := None;
    StagedIsExact(pristine, staging.tree, files);
  }

  /** The file is no directory and its patch has no conflict. */
  predicate Applies(pristine: Tree, file: FileDiff) {
    (file.path in pristine ==> pristine[file.path].File?) && !ApplyFile(file, FileAt(pristine, file.path)).Conflict?
  }

  /** A file of a diff applies exactly when it is no directory and is accepted with what is there. */
  lemma AppliesExact(pristine: Tree, file: FileDiff)
    ensures Applies(pristine, file) <==>
            && !(file.path in pristine && pristine[file.path].Directory?)
            && exists gaps :: AcceptedWith(file, FileAt(pristine, file.path), gaps)
  {
    hide ApplyFile, AcceptedWith;
    ApplyExact(file, FileAt(pristine, file.path));
  }

  /** A staged diff creates only what was not there, changes only what was, and removes exactly what it deletes;
      what it leaves is the gaps of the file with the new sides. */
  lemma StagedIsExact(pristine: Tree, staged: Tree, files: seq<FileDiff>)
    requires Staged(pristine, staged, files) && forall file :: file in files ==> NamesFile(file)
    ensures forall file :: file in files ==>
              && (file.oldPath.None? <==> file.path !in pristine)
              && (file.newPath.None? <==> FileAt(staged, file.path).None?)
    ensures forall file, gaps :: file in files && file.newPath.Some? && AcceptedWith(file, FileAt(pristine, file.path), gaps) ==>
              FileAt(staged, file.path) == Some(BytesWith(file, FileAt(pristine, file.path), gaps))
  {
    hide ApplyFile, OthersKept, Splits, OldEndAllowed, NewEndAllowed, BytesWith, Weave;
    forall file | file in files
      ensures file.oldPath.None? <==> file.path !in pristine
      ensures file.newPath.None? <==> FileAt(staged, file.path).None?
    {
      assert FileStaged(pristine, staged, file);
      ApplyExact(file, FileAt(pristine, file.path));
      var gaps :| AcceptedWith(file, FileAt(pristine, file.path), gaps);
    }
    forall file, gaps | file in files && file.newPath.Some? && AcceptedWith(file, FileAt(pristine, file.path), gaps)
      ensures FileAt(staged, file.path) == Some(BytesWith(file, FileAt(pristine, file.path), gaps))
    {
      assert FileStaged(pristine, staged, file);
      ApplyExact(file, FileAt(pristine, file.path));
    }
  }

  /** Grounds for the filesystem to refuse a file of a diff: its path is too long, something on its way is a file or is
      missing, or it is a directory on the way to another file of the diff. */
  ghost predicate Hindered(pristine: Tree, files: seq<FileDiff>, file: FileDiff) {
    || |Encode(file.path)| > 1024
    || (exists d :: d in Ancestors(file.path) && FileAt(pristine, d).Some?)
    || (exists other :: other in files && other.path in Ancestors(file.path))
    || (exists other :: other in files && file.path in Ancestors(other.path))
    || (file.path in pristine && exists d :: d in Ancestors(file.path) && d !in Directories(pristine))
  }

  /** A file in the staged tree was there before, or is one of the diff. */
  lemma StagedFile(pristine: Tree, before: Tree, files: seq<FileDiff>, i: nat, path: string)
    requires i <= |files| && OthersKept(pristine, before, files[..i]) && FileAt(before, path).Some?
    ensures FileAt(pristine, path).Some? || exists other :: other in files && other.path == path
  {
    hide FileAt, Directories, Ancestors;
    if forall file :: file in files[..i] ==> file.path != path {
      assert FileAt(before, path) == FileAt(pristine, path);
    } else {
      var file :| file in files[..i] && file.path == path;
      assert file in files;
    }
  }

  lemma WriteHindered(pristine: Tree, before: Tree, files: seq<FileDiff>, i: nat)
    requires i < |files| && DistinctPaths(files) && Staged(pristine, before, files[..i])
    requires files[i].path in pristine ==> pristine[files[i].path].File?
    requires !CanWrite(before, files[i].path, files[i].path !in pristine)
    ensures Hindered(pristine, files, files[i])
  {
    hide FileStaged, Ancestors;
    var path := files[i].path;
    if d :| d in Ancestors(path) && d in before && !before[d].Directory? {
      StagedFile(pristine, before, files, i, d);
    } else if |Encode(path)| <= MAX_PATH_BYTES {
      assert forall file :: file in files[..i] ==> file.path != path;
      assert FileAt(before, path) == FileAt(pristine, path);
      if path !in pristine && path in Directories(before) {
        var file :| file in files[..i] && path in Ancestors(file.path);
        assert file in files;
      }
    }
  }

  lemma DeleteHindered(pristine: Tree, before: Tree, files: seq<FileDiff>, i: nat)
    requires i < |files| && DistinctPaths(files) && Staged(pristine, before, files[..i])
    requires files[i].path in pristine && pristine[files[i].path].File? && !CanDelete(before, files[i].path)
    ensures Hindered(pristine, files, files[i])
  {
    hide FileStaged, Ancestors;
    var path := files[i].path;
    assert forall file :: file in files[..i] ==> file.path != path;
    assert FileAt(before, path) == FileAt(pristine, path);
    if |Encode(path)| <= MAX_PATH_BYTES {
      var d :| d in Ancestors(path) && !(d in before && before[d].Directory?);
      assert d !in Directories(before);
      assert d !in Directories(pristine);
    }
  }

  lemma NothingStaged(pristine: Tree)
    ensures Staged(pristine, pristine, [])
  {
  }

  lemma DeleteStages(pristine: Tree, before: Tree, done: seq<FileDiff>, file: FileDiff)
    requires Staged(pristine, before, done) && CanDelete(before, file.path)
    requires forall other :: other in done ==> other.path != file.path
    requires file.path in pristine ==> pristine[file.path].File?
    requires ApplyFile(file, FileAt(pristine, file.path)) == Deleted
    ensures Staged(pristine, before - {file.path}, done + [file])
    ensures forall f :: f == file || Passable(before, f) ==> Passable(before - {file.path}, f)
  {
    hide ApplyFile, Ancestors;
    var after := before - {file.path};
    var all := done + [file];
    assert forall path :: path != file.path ==> FileAt(after, path) == FileAt(before, path);
    assert Directories(after) == Directories(before);
    assert forall x :: x in all <==> x == file || x in done;
    forall d | d in Directories(after) && d !in Directories(pristine) ensures exists f :: f in all && d in Ancestors(f.path) {
      var f :| f in done && d in Ancestors(f.path);
      assert f in all;
    }
    assert OthersKept(pristine, after, all);
  }

  lemma WriteStages(pristine: Tree, before: Tree, done: seq<FileDiff>, file: FileDiff, data: seq<byte>, create: bool)
    requires Staged(pristine, before, done) && CanWrite(before, file.path, create)
    requires forall other :: other in done ==> other.path != file.path
    requires file.path in pristine ==> pristine[file.path].File?
    requires ApplyFile(file, FileAt(pristine, file.path)) == Content(data)
    ensures Staged(pristine, Written(before, file.path, data), done + [file])
    ensures forall f :: f == file || Passable(before, f) ==> Passable(Written(before, file.path, data), f)
  {
    hide ApplyFile, Ancestors;
    var after := Written(before, file.path, data);
    var all := done + [file];
    NotOwnAncestor(file.path);
    assert forall path :: path != file.path ==> FileAt(after, path) == FileAt(before, path);
    assert Directories(after) == Directories(before) + Ancestors(file.path);
    assert forall x :: x in all <==> x == file || x in done;
    forall d | d in Directories(after) && d !in Directories(pristine) ensures exists f :: f in all && d in Ancestors(f.path) {
      if d in Directories(before) {
        var f :| f in done && d in Ancestors(f.path);
        assert f in all;
      } else {
        assert file in all;
      }
    }
    assert OthersKept(pristine, after, all);
  }

  // ---------------------------------------------------------------- what changed

  /** Paths whose regular file appeared, disappeared or has other bytes. */
  function Changed(before: Tree, after: Tree): set<string> {
    set path | path in before.Keys + after.Keys && FileAt(before, path) != FileAt(after, path)
  }

  /** A dictionary built in this order keeps the last path of each identity. */
  function LastWith(order: seq<string>, fold: string -> string, identity: string): Option<string> {
    if order == [] then None
    else if fold(order[|order| - 1]) == identity then Some(order[|order| - 1])
    else LastWith(order[..|order| - 1], fold, identity)
  }

  /**
   The check of `_changed_python_paths`: the changed files are the expected ones, in the
   expected spelling; no directory is lost, and new ones stand above expected files.
   `order` is the order in which the set of changed paths is iterated.
   */
  predicate ChangedAsExpected(fold: string -> string, before: Tree, after: Tree, expected: seq<string>,
      order: seq<string>) {
    && (set path | path in Changed(before, after) :: fold(path)) == (set path | path in expected :: fold(path))
    && (forall path :: path in expected ==> LastWith(order, fold, fold(path)) == Some(path))
    && Directories(before) <= Directories(after)
    && forall d :: d in Directories(after) && d !in Directories(before) ==> exists path :: path in expected && d in Ancestors(path)
  }

  ghost predicate Enumerates(order: seq<string>, paths: set<string>) {
    forall path :: path in order <==> path in paths
  }

  /** The path comes in this order, and none after it by the same name. */
  ghost predicate LastNamed(order: seq<string>, fold: string -> string, path: string) {
    exists i :: 0 <= i < |order| && order[i] == path && forall j :: i < j < |order| ==> fold(order[j]) != fold(path)
  }

  lemma {:induction false} NamedIsLast(order: seq<string>, fold: string -> string, path: string, i: nat)
    requires i < |order| && order[i] == path && forall j :: i < j < |order| ==> fold(order[j]) != fold(path)
    ensures LastWith(order, fold, fold(path)) == Some(path)
    decreases |order|
  {
    var n := |order| - 1;
    if i < n {
      NamedIsLast(order[..n], fold, path, i);
    }
  }

  lemma {:induction false} LastIsNamed(order: seq<string>, fold: string -> string, path: string) returns (i: nat)
    requires LastWith(order, fold, fold(path)) == Some(path)
    ensures i < |order| && order[i] == path && forall j :: i < j < |order| ==> fold(order[j]) != fold(path)
    decreases |order|
  {
    i := |order| - 1;
    if fold(order[i]) != fold(path) {
      var rest := order[..i];
      assert forall j :: 0 <= j < |rest| ==> rest[j] == order[j];
      i := LastIsNamed(rest, fold, path);
    }
  }

  lemma LastWithExact(order: seq<string>, fold: string -> string, path: string)
    ensures LastWith(order, fold, fold(path)) == Some(path) <==> LastNamed(order, fold, path)
  {
    hide LastWith;
    if LastWith(order, fold, fold(path)) == Some(path) {
      var i := LastIsNamed(order, fold, path);
    }
    if LastNamed(order, fold, path) {
      var i: nat :| i < |order| && order[i] == path && forall j :: i < j < |order| ==> fold(order[j]) != fold(path);
      NamedIsLast(order, fold, path, i);
    }
  }

  lemma SameNames(fold: string -> string, a: set<string>, b: seq<string>)
    ensures (set path | path in a :: fold(path)) == (set path | path in b :: fold(path)) <==>
              && (forall path :: path in a ==> exists e :: e in b && fold(e) == fold(path))
              && (forall e :: e in b ==> exists path :: path in a && fold(e) == fold(path))
  {
    var x, y := set path | path in a :: fold(path), set path | path in b :: fold(path);
    if x == y {
      forall path | path in a ensures exists e :: e in b && fold(e) == fold(path) {
        assert fold(path) in x;
      }
      forall e | e in b ensures exists path :: path in a && fold(e) == fold(path) {
        assert fold(e) in y;
      }
    }
  }

  /** The directory is above an expected path. */
  ghost predicate AboveExpected(expected: seq<string>, d: string) {
    exists e, i :: e in expected && 0 < i < |e| && e[i] == '/' && d == e[..i]
  }

  lemma AboveIsAncestor(expected: seq<string>, d: string)
    ensures AboveExpected(expected, d) <==> exists path :: path in expected && d in Ancestors(path)
  {
  }

  /** The path goes by the name of an expected one. */
  ghost predicate GoesByName(fold: string -> string, expected: seq<string>, path: string) {
    exists e :: e in expected && fold(e) == fold(path)
  }

  lemma NamesExactly(fold: string -> string, changed: set<string>, expected: seq<string>, order: seq<string>)
    requires Enumerates(order, changed)
    ensures (set path | path in changed :: fold(path)) == (set path | path in expected :: fold(path))
            && (forall path :: path in expected ==> LastWith(order, fold, fold(path)) == Some(path))
        <==> (forall path :: path in changed ==> GoesByName(fold, expected, path))
             && (forall e :: e in expected ==> LastNamed(order, fold, e))
  {
    hide LastWith, LastNamed;
    SameNames(fold, changed, expected);
    forall e ensures LastWith(order, fold, fold(e)) == Some(e) <==> LastNamed(order, fold, e) {
      LastWithExact(order, fold, e);
    }
    forall e | e in expected && LastNamed(order, fold, e) ensures exists path :: path in changed && fold(e) == fold(path) {
      NamedIsThere(order, fold, e);
      assert e in changed;
    }
  }

  lemma DirectoriesExactly(before: Tree, after: Tree, expected: seq<string>)
    ensures Directories(before) <= Directories(after)
            && (forall d :: d in Directories(after) && d !in Directories(before) ==> exists path :: path in expected && d in Ancestors(path))
        <==> (forall d :: d in before && before[d].Directory? ==> d in after && after[d].Directory?)
             && forall d :: d in after && after[d].Directory? && !(d in before && before[d].Directory?) ==> AboveExpected(expected, d)
  {
    hide AboveExpected, Ancestors;
    forall d ensures AboveExpected(expected, d) <==> exists path :: path in expected && d in Ancestors(path) {
      AboveIsAncestor(expected, d);
    }
    assert forall d :: d in Directories(before) <==> d in before && before[d].Directory?;
    assert forall d :: d in Directories(after) <==> d in after && after[d].Directory?;
  }

  /** What the check accepts of any two trees: each file that changed goes by the name of an expected path, each expected
      path is the last changed one by its name, no directory went, and those that came are above an expected path. */
  lemma AcceptsExactly(fold: string -> string, before: Tree, after: Tree, expected: seq<string>, order: seq<string>)
    requires Enumerates(order, Changed(before, after))
    ensures ChangedAsExpected(fold, before, after, expected, order) <==>
              && (forall path :: FileAt(before, path) != FileAt(after, path) ==> GoesByName(fold, expected, path))
              && (forall e :: e in expected ==> LastNamed(order, fold, e))
              && (forall d :: d in before && before[d].Directory? ==> d in after && after[d].Directory?)
              && forall d :: d in after && after[d].Directory? && !(d in before && before[d].Directory?) ==> AboveExpected(expected, d)
  {
    hide LastWith, LastNamed, AboveExpected, GoesByName, Ancestors, Directories;
    var changed := Changed(before, after);
    assert forall path :: path in changed <==> FileAt(before, path) != FileAt(after, path);
    hide Changed, FileAt;
    NamesExactly(fold, changed, expected, order);
    DirectoriesExactly(before, after, expected);
  }

  lemma NamedIsThere(order: seq<string>, fold: string -> string, path: string)
    ensures LastNamed(order, fold, path) ==> path in order
  {
  }

  ghost predicate FoldDistinct(fold: string -> string, paths: seq<string>) {
    forall p, q :: p in paths && q in paths && fold(p) == fold(q) ==> p == q
  }

  lemma {:induction false} LastWithUnique(order: seq<string>, fold: string -> string, path: string)
    requires path in order && forall q :: q in order && fold(q) == fold(path) ==> q == path
    ensures LastWith(order, fold, fold(path)) == Some(path)
    decreases |order|
  {
    var last := order[|order| - 1];
    if fold(last) != fold(path) {
      assert forall q :: q in order[..|order| - 1] ==> q in order;
      LastWithUnique(order[..|order| - 1], fold, path);
    } else {
      assert last in order;
    }
  }

  /** The patch of this file left other bytes, or another file, than it found. */
  predicate ReallyChanged(pristine: Tree, file: FileDiff) {
    match ApplyFile(file, FileAt(pristine, file.path))
    case Conflict => false
    case Deleted => true
    case Content(data) => FileAt(pristine, file.path) != Some(data)
  }

  lemma DeletedExists(file: FileDiff, source: Option<seq<byte>>)
    requires file.oldPath.Some? || file.newPath.Some?
    requires ApplyFile(file, source) == Deleted
    ensures source.Some?
  {
    hide ApplyHunks, DecodeSource, EofAllowed, WriteOutput;
    if file.IsAdded() {
      AddedIsWritten(file);
    }
  }

  lemma AddedIsWritten(file: FileDiff)
    requires file.newPath.Some?
    ensures forall output, newline, finalNewline :: !WriteOutput(file, output, newline, finalNewline).Deleted?
  {
  }

  lemma ReallyIsChanged(pristine: Tree, staged: Tree, file: FileDiff)
    requires FileStaged(pristine, staged, file) && (file.oldPath.Some? || file.newPath.Some?)
    ensures file.path in Changed(pristine, staged) <==> ReallyChanged(pristine, file)
  {
    hide ApplyFile;
    if ApplyFile(file, FileAt(pristine, file.path)).Deleted? {
      DeletedExists(file, FileAt(pristine, file.path));
    }
  }

  /** If only expected paths changed and no two of them share a name, all have to have changed. */
  lemma AllExpectedChange(fold: string -> string, before: Tree, after: Tree, expected: seq<string>, order: seq<string>)
    requires FoldDistinct(fold, expected) && Enumerates(order, Changed(before, after))
    requires forall path :: path in Changed(before, after) ==> path in expected
    requires Directories(before) <= Directories(after)
    requires forall d :: d in Directories(after) && d !in Directories(before) ==> exists path :: path in expected && d in Ancestors(path)
    ensures ChangedAsExpected(fold, before, after, expected, order) <==> forall path :: path in expected ==> path in Changed(before, after)
  {
    hide Ancestors, LastWith, Changed, Directories;
    var changed := Changed(before, after);
    if forall path :: path in expected ==> path in changed {
      forall path | path in expected ensures LastWith(order, fold, fold(path)) == Some(path) {
        LastWithUnique(order, fold, path);
      }
    } else {
      var path :| path in expected && path !in changed;
      LastWithMember(order, fold, fold(path));
    }
  }

  /**
   On a staged tree the check accepts exactly when every file of the diff really changed,
   whatever order the set of changed paths is iterated in.
   */
  lemma CheckAcceptsRealChanges(fold: string -> string, pristine: Tree, staged: Tree, files: seq<FileDiff>,
                                expected: seq<string>, order: seq<string>)
    requires Staged(pristine, staged, files)
    requires forall path :: path in expected <==> exists file :: file in files && file.path == path
    requires FoldDistinct(fold, expected) && Enumerates(order, Changed(pristine, staged))
    requires forall file :: file in files ==> file.oldPath.Some? || file.newPath.Some?
    ensures ChangedAsExpected(fold, pristine, staged, expected, order) <==>
            forall file :: file in files ==> ReallyChanged(pristine, file)
  {
    hide ApplyFile, Ancestors, LastWith, ReallyChanged, ChangedAsExpected, FileStaged, OthersKept, Directories,
        Enumerates,
        FoldDistinct;
    var changed := Changed(pristine, staged);
    forall path | path in changed ensures path in expected {
      ChangedIsNamed(pristine, staged, files, path);
    }
    hide Changed, FileAt;
    forall file | file in files ensures file.path in changed <==> ReallyChanged(pristine, file) {
      ReallyIsChanged(pristine, staged, file);
    }
    DirectoriesExpected(pristine, staged, files, expected);
    AllExpectedChange(fold, pristine, staged, expected, order);
  }

  /** Only files of the diff change. */
  lemma ChangedIsNamed(pristine: Tree, staged: Tree, files: seq<FileDiff>, path: string)
    requires OthersKept(pristine, staged, files) && FileAt(pristine, path) != FileAt(staged, path)
    ensures exists file :: file in files && file.path == path
  {
    hide FileAt, Directories, Ancestors;
  }

  lemma DirectoriesExpected(pristine: Tree, staged: Tree, files: seq<FileDiff>, expected: seq<string>)
    requires OthersKept(pristine, staged, files)
    requires forall path :: path in expected <==> exists file :: file in files && file.path == path
    ensures Directories(pristine) <= Directories(staged)
    ensures forall d :: d in Directories(staged) && d !in Directories(pristine) ==> exists path :: path in expected && d in Ancestors(path)
  {
    hide Ancestors;
    forall d | d in Directories(staged) && d !in Directories(pristine) ensures exists path :: path in expected && d in Ancestors(path) {
      var file :| file in files && d in Ancestors(file.path);
      assert file.path in expected;
    }
  }

  lemma {:induction false} LastWithMember(order: seq<string>, fold: string -> string, identity: string)
    ensures LastWith(order, fold, identity).Some? ==> LastWith(order, fold, identity).value in order
    decreases |order|
  {
    if order != [] {
      LastWithMember(order[..|order| - 1], fold, identity);
    }
  }

  // ---------------------------------------------------------------- line counts over a whole diff

  function LinesOfKind(files: seq<FileDiff>, kind: LineKind): nat {
    if files == [] then 0 else LinesOfKind(files[..|files| - 1], kind) + CountKind(files[|files| - 1].lines, kind)
  }

  /** `changed_line_count` of a parsed diff. */
  function ChangedLineCount(files: seq<FileDiff>): nat {
    if files == [] then 0
    else ChangedLineCount(files[..|files| - 1]) + SideLength(files[|files| - 1].lines, Context)
  }

  lemma {:induction false} KindsSum(lines: seq<DiffLine>)
    ensures SideLength(lines, Context) == CountKind(lines, Added) + CountKind(lines, Removed)
  {
    if lines != [] {
      KindsSum(lines[..|lines| - 1]);
    }
  }

  lemma {:induction false} ChangedIsAddedAndRemoved(files: seq<FileDiff>)
    ensures ChangedLineCount(files) == LinesOfKind(files, Added) + LinesOfKind(files, Removed)
    decreases |files|
  {
    if files != [] {
      ChangedIsAddedAndRemoved(files[..|files| - 1]);
      KindsSum(files[|files| - 1].lines);
    }
  }

  /** The lines a file patch starts from. */
  function SourceLines(pristine: Tree, file: FileDiff): seq<string> {
    if file.IsAdded() || FileAt(pristine, file.path).None? then []
    else
      match DecodeSource(FileAt(pristine, file.path).value)
      case None => []
      case Some(source) => source.lines
  }

  function OutputLines(pristine: Tree, file: FileDiff): seq<string> {
    match ApplyHunks(SourceLines(pristine, file), file.hunks, 0, 0)
    case None => []
    case Some(output) => output
  }

  function TotalLines(pristine: Tree, files: seq<FileDiff>, written: bool): nat {
    if files == [] then 0
    else
      var file := files[|files| - 1];
      TotalLines(pristine, files[..|files| - 1], written) +
      if written then |OutputLines(pristine, file)| else |SourceLines(pristine, file)|
  }

  /** A patch that applies writes the output of its hunks on its source lines. */
  lemma AppliedWritesOutput(pristine: Tree, file: FileDiff)
    requires Applies(pristine, file)
    ensures ApplyHunks(SourceLines(pristine, file), file.hunks, 0, 0).Some?
  {
    hide ApplyHunks, DecodeSource;
  }

  /** Over the whole diff, lines written minus lines read are lines added minus lines removed. */
  lemma {:induction false} DiffConserves(pristine: Tree, files: seq<FileDiff>)
    requires forall file :: file in files ==> Applies(pristine, file) && FileShape(file)
    ensures TotalLines(pristine, files, true) - TotalLines(pristine, files, false) ==
            LinesOfKind(files, Added) - LinesOfKind(files, Removed)
    decreases |files|
  {
    hide Applies, FileShape, ApplyHunks, SourceLines;
    if files != [] {
      var file := files[|files| - 1];
      assert file in files;
      DiffConserves(pristine, files[..|files| - 1]);
      AppliedWritesOutput(pristine, file);
      HunksConserve(SourceLines(pristine, file), file.hunks, 0, 0);
      assert file.lines == HunkLines(file.hunks) by {
        ShapeLines(file);
      }
    }
  }

  lemma ShapeLines(file: FileDiff)
    requires FileShape(file)
    ensures file.lines == HunkLines(file.hunks)
  {
  }
}
