/** The project's flat store and the operations of the file explorer that
    change it.

    The whole project is one map from path to content; a key ending in `/`
    is a folder placeholder whose content is "". A second piece of state,
    the active path, names the selected entry ("" when none). The answers
    of the browser's `prompt` and `confirm` dialogs are parameters: a
    cancelled or empty prompt is "", a declined confirmation is `false`.
    The `alert` shown on a name clash is the `NameConflict` outcome. */
module FileStore {
  import opened Paths

  /** How an operation ended: it changed the store, the prompt was cancelled
      (or given an unchanged name), or the name was already taken. */
  datatype Outcome = Applied | Cancelled | NameConflict

  /** The folder `addFile` puts the new file in: the folder it was invoked
      on, or else the one derived from the selected entry. */
  function FileParent(folderPath: string, active: string): (r: string)
    ensures folderPath != "" ==> r == folderPath
    ensures folderPath == "" ==> r == "" || IsFolder(r)
    ensures folderPath == "" ==> StartsWith(active, r)
    ensures folderPath == "" && IsFolder(active) ==> r == active
    ensures folderPath == "" && !IsFolder(active) ==> '/' !in active[|r|..]
  {
    if folderPath != "" then folderPath else ParentForNewFile(active)
  }

  /** `Object.keys(fileTree).some((key) => key.startsWith(fullPath))`. */
  predicate AnyKeyStartsWith(tree: map<string, string>, prefix: string) {
    exists k :: k in tree && StartsWith(k, prefix)
  }

  /** The key a key becomes in `renameItem`: the `oldPath` prefix, matched
      as raw characters, is replaced by `newPath`; other keys stay. */
  function Moved(key: string, oldPath: string, newPath: string): (r: string)
    ensures StartsWith(key, oldPath) ==>
      StartsWith(r, newPath) && r[|newPath|..] == key[|oldPath|..]
    ensures !StartsWith(key, oldPath) ==> r == key
  {
    if StartsWith(key, oldPath) then newPath + key[|oldPath|..] else key
  }

  /** No other key of `keys` is moved onto the key `k` is moved to. */
  ghost predicate SoleSource(keys: set<string>, k: string, oldPath: string, newPath: string) {
    forall k' :: k' in keys && Moved(k', oldPath, newPath) == Moved(k, oldPath, newPath) ==> k' == k
  }

  /** `after` is what the renaming loop builds from the entries of `before`
      whose keys are in `done`, visited in some order: its keys are the moved
      keys, every entry holds the content of some key moved onto it, and a
      key that nothing else is moved onto keeps its content. Which content
      survives when several keys meet depends on the visiting order, which
      the store does not fix. */
  ghost predicate RenamedOn(before: map<string, string>, done: set<string>,
                            after: map<string, string>, oldPath: string, newPath: string)
    requires done <= before.Keys
  {
    && (forall k {:trigger Moved(k, oldPath, newPath)} :: k in done ==> Moved(k, oldPath, newPath) in after)
    && (forall key {:trigger after[key]} :: key in after ==>
          exists k :: k in done && Moved(k, oldPath, newPath) == key && after[key] == before[k])
    && (forall k {:trigger SoleSource(done, k, oldPath, newPath)} ::
          k in done && SoleSource(done, k, oldPath, newPath) ==>
          after[Moved(k, oldPath, newPath)] == before[k])
  }

  /** The checks of `renameItem`: an empty or unchanged name cancels, and
      a new path that is another existing key is a clash. */
  function RenameOutcome(tree: map<string, string>, oldPath: string, newName: string): (r: Outcome)
    ensures r == Cancelled <==> newName == "" || newName == RenameOldName(oldPath)
    ensures r == NameConflict ==>
      RenameTarget(oldPath, newName) in tree && RenameTarget(oldPath, newName) != oldPath
    ensures r == Applied ==>
      RenameTarget(oldPath, newName) !in tree || RenameTarget(oldPath, newName) == oldPath
  {
    var newPath := RenameTarget(oldPath, newName);
    if newName == "" || newName == RenameOldName(oldPath) then Cancelled
    else if newPath in tree && newPath != oldPath then NameConflict
    else Applied
  }

  /** The selection never dangles: it is empty, a folder path, or a key. */
  predicate SelectionValid(tree: map<string, string>, active: string) {
    active == "" || IsFolder(active) || active in tree
  }

  /** The explorer's state: the flat store `fileTree` and `activeFilePath`. */
  class Project {
    var fileTree: map<string, string>
    var activeFilePath: string

    predicate Valid()
      reads this
    {
      SelectionValid(fileTree, activeFilePath)
    }

    /** The state after start-up, with the store and selection it loaded. */
    constructor (tree: map<string, string>, active: string)
      ensures fileTree == tree && activeFilePath == active
    {
      fileTree := tree;
      activeFilePath := active;
    }

    /** The bookkeeping of `loadFileContent`: an empty or folder path is
        always selected; a file path only when it is a key. */
    method Open(path: string)
      modifies this
      ensures old(Valid()) ==> Valid()
      ensures fileTree == old(fileTree)
      ensures activeFilePath ==
        if path == "" || IsFolder(path) || path in old(fileTree) then path
        else old(activeFilePath)
    {
      if path == "" || IsFolder(path) {
        activeFilePath := path;
        return;
      }
      if path in fileTree {
        activeFilePath := path;
      }
    }

    /** `addFile`: create an empty file named `fileName` in `folderPath`, or
        beside the selected entry when no folder is given, and select it. An
        existing key of that name is an error and changes nothing. */
    method AddFile(folderPath: string, fileName: string) returns (outcome: Outcome)
      modifies this
      ensures old(Valid()) ==> Valid()
      ensures var path := NewFilePath(FileParent(folderPath, old(activeFilePath)), fileName);
        && outcome == (if fileName == "" then Cancelled
                       else if path in old(fileTree) then NameConflict
                       else Applied)
        && (outcome == Applied ==>
              fileTree == old(fileTree)[path := ""] && activeFilePath == path)
      ensures outcome != Applied ==>
        fileTree == old(fileTree) && activeFilePath == old(activeFilePath)
    {
      if fileName == "" {
        return Cancelled;
      }
      var parentPath := FileParent(folderPath, activeFilePath);
      var path := NewFilePath(parentPath, fileName);
      if path in fileTree {
        return NameConflict;
      }
      fileTree := fileTree[path := ""];
      activeFilePath := path;
      outcome := Applied;
    }

    /** `addFolder`: create the placeholder `parentPath/folderName/`, unless
        some key already starts with that path. The selection is kept. */
    method AddFolder(parentPath: string, folderName: string) returns (outcome: Outcome)
      modifies this
      ensures old(Valid()) ==> Valid()
      ensures var fullPath := NewFolderPath(parentPath, folderName);
        && outcome == (if folderName == "" then Cancelled
                       else if AnyKeyStartsWith(old(fileTree), fullPath) then NameConflict
                       else Applied)
        && (outcome == Applied ==> fileTree == old(fileTree)[fullPath := ""])
      ensures outcome != Applied ==> fileTree == old(fileTree)
      ensures activeFilePath == old(activeFilePath)
    {
      if folderName == "" {
        return Cancelled;
      }
      var fullPath := NewFolderPath(parentPath, folderName);
      if AnyKeyStartsWith(fileTree, fullPath) {
        return NameConflict;
      }
      fileTree := fileTree[fullPath := ""];
      outcome := Applied;
    }

    /** `deleteFile`: once confirmed, remove the one key `path` and clear
        the selection if it was that key. */
    method DeleteFile(path: string, confirmed: bool)
      modifies this
      ensures old(Valid()) ==> Valid()
      ensures !confirmed ==> fileTree == old(fileTree) && activeFilePath == old(activeFilePath)
      ensures confirmed ==> fileTree == old(fileTree) - {path}
      ensures confirmed ==>
        activeFilePath == if old(activeFilePath) == path then "" else old(activeFilePath)
    {
      if confirmed {
        fileTree := fileTree - {path};
        if activeFilePath == path {
          activeFilePath := "";
        }
      }
    }

    /** `deleteFolder`: once confirmed, remove every key that starts with
        `path` (a raw prefix test) and clear a selection that starts with it. */
    method DeleteFolder(path: string, confirmed: bool)
      modifies this
      ensures old(Valid()) ==> Valid()
      ensures !confirmed ==> fileTree == old(fileTree) && activeFilePath == old(activeFilePath)
      ensures confirmed ==> forall k :: k in fileTree ==> k in old(fileTree) && !StartsWith(k, path)
      ensures confirmed ==> forall k :: k in old(fileTree) && !StartsWith(k, path) ==>
        k in fileTree && fileTree[k] == old(fileTree)[k]
      ensures confirmed ==>
        activeFilePath == if StartsWith(old(activeFilePath), path) then "" else old(activeFilePath)
    {
      if confirmed {
        var filesToDelete := set k | k in fileTree && StartsWith(k, path);
        var pending := filesToDelete;
        while pending != {}
          invariant pending <= filesToDelete
          invariant fileTree == old(fileTree) - (filesToDelete - pending)
          invariant activeFilePath == old(activeFilePath)
          decreases pending
        {
          var k :| k in pending;
          fileTree := fileTree - {k};
          pending := pending - {k};
        }
        if StartsWith(activeFilePath, path) {
          activeFilePath := "";
        }
      }
    }

    /** `renameItem`: give the entry `oldPath` the name `newName`. Nothing
        happens when the name is empty or unchanged, or when the new path is
        another existing key. Otherwise every key that starts with `oldPath`
        is moved under the new path, keeping its content and suffix, every
        other key is copied, and the selection is moved the same way. */
    method Rename(oldPath: string, newName: string) returns (outcome: Outcome, newPath: string)
      modifies this
      ensures oldPath != "" && old(Valid()) ==> Valid()
      ensures newPath == RenameTarget(oldPath, newName)
      ensures outcome == RenameOutcome(old(fileTree), oldPath, newName)
      ensures outcome == Applied ==>
        && RenamedOn(old(fileTree), old(fileTree).Keys, fileTree, oldPath, newPath)
        && activeFilePath == Moved(old(activeFilePath), oldPath, newPath)
      ensures outcome != Applied ==>
        fileTree == old(fileTree) && activeFilePath == old(activeFilePath)
    {
      newPath := RenameTarget(oldPath, newName);
      outcome := RenameOutcome(fileTree, oldPath, newName);
      if outcome == Applied {
        MoveEntries(oldPath, newPath);
      }
    }

    /** The part of `renameItem` after its checks: rebuild the store with
        every key moved, then move the selection. */
    method MoveEntries(oldPath: string, newPath: string)
      requires IsFolder(oldPath) ==> IsFolder(newPath)
      modifies this
      ensures oldPath != "" && old(Valid()) ==> Valid()
      ensures RenamedOn(old(fileTree), old(fileTree).Keys, fileTree, oldPath, newPath)
      ensures activeFilePath == Moved(old(activeFilePath), oldPath, newPath)
    {
      var renamedFileTree := RenameKeys(fileTree, oldPath, newPath);
      RenameKeepsSelection(fileTree, renamedFileTree, oldPath, newPath, activeFilePath);
      fileTree := renamedFileTree;
      if StartsWith(activeFilePath, oldPath) {
        activeFilePath := newPath + activeFilePath[|oldPath|..];
      }
    }
  }

  /** Deleting the file that `addFile` has just created gives back the store
      it started from, and leaves nothing selected. */
  method AddThenDeleteFile(tree: map<string, string>, active: string, folderPath: string, fileName: string)
    returns (outcome: Outcome, restored: map<string, string>, selection: string)
    ensures restored == tree
    ensures outcome == Applied ==> selection == ""
    ensures outcome != Applied ==> selection == active
  {
    var p := new Project(tree, active);
    outcome := p.AddFile(folderPath, fileName);
    if outcome == Applied {
      p.DeleteFile(NewFilePath(FileParent(folderPath, active), fileName), true);
    }
    restored, selection := p.fileTree, p.activeFilePath;
  }

  /** Deleting the folder that `addFolder` has just created gives back the
      store it started from: `addFolder` only goes ahead when no key starts
      with the new folder path, so the prefix deletion removes the
      placeholder and nothing else. */
  method AddThenDeleteFolder(tree: map<string, string>, active: string, parentPath: string, folderName: string)
    returns (outcome: Outcome, restored: map<string, string>)
    ensures restored == tree
  {
    var p := new Project(tree, active);
    outcome := p.AddFolder(parentPath, folderName);
    if outcome == Applied {
      var fullPath := NewFolderPath(parentPath, folderName);
      assert !AnyKeyStartsWith(tree, fullPath);
      p.DeleteFolder(fullPath, true);
      assert p.fileTree.Keys == tree.Keys;
    }
    restored := p.fileTree;
  }

  /** The loop of `renameItem` that copies every entry into a new map,
      under its moved key, visiting the keys in an order it does not fix. */
  method RenameKeys(tree: map<string, string>, oldPath: string, newPath: string)
    returns (renamedFileTree: map<string, string>)
    ensures RenamedOn(tree, tree.Keys, renamedFileTree, oldPath, newPath)
  {
    renamedFileTree := map[];
    var pending := tree.Keys;
    ghost var done: set<string> := {};
    while pending != {}
      invariant done == tree.Keys - pending && pending <= tree.Keys
      invariant RenamedOn(tree, done, renamedFileTree, oldPath, newPath)
      decreases pending
    {
      var filePath :| filePath in pending;
      var newFilePath := Moved(filePath, oldPath, newPath);
      RenameStep(tree, done, renamedFileTree, oldPath, newPath, filePath);
      renamedFileTree := renamedFileTree[newFilePath := tree[filePath]];
      pending := pending - {filePath};
      done := done + {filePath};
    }
  }

  /** Renaming keeps the selection valid: a selected key is moved to a key
      of the new map, and a selected folder path stays a folder path because
      a folder is always renamed to a folder. (Renaming the empty path would
      move an empty selection onto a new path that need not be a key; the
      explorer only offers renaming for entries it shows, which are never
      empty.) */
  lemma RenameKeepsSelection(before: map<string, string>, after: map<string, string>,
                             oldPath: string, newPath: string, active: string)
    requires RenamedOn(before, before.Keys, after, oldPath, newPath)
    requires IsFolder(oldPath) ==> IsFolder(newPath)
    ensures oldPath != "" && SelectionValid(before, active) ==>
      SelectionValid(after, Moved(active, oldPath, newPath))
  {
    var moved := Moved(active, oldPath, newPath);
    if oldPath == "" || !SelectionValid(before, active) || active in before {
    } else if active != "" && StartsWith(active, oldPath) {
      assert IsFolder(active);
      var suffix := active[|oldPath|..];
      assert moved == newPath + suffix;
      if suffix == "" {
        assert active == oldPath;
        assert moved == newPath;
        assert IsFolder(moved);
      } else {
        assert suffix[|suffix| - 1] == '/';
        assert moved[|moved| - 1] == suffix[|suffix| - 1];
        assert IsFolder(moved);
      }
    }
  }

  /** When no two keys are moved onto the same key, renaming loses nothing:
      the new store is the old one with every key moved. */
  lemma NoMerge(before: map<string, string>, after: map<string, string>,
                oldPath: string, newPath: string)
    requires RenamedOn(before, before.Keys, after, oldPath, newPath)
    requires forall k, k' ::
      (k in before && k' in before && Moved(k, oldPath, newPath) == Moved(k', oldPath, newPath)) ==> k == k'
    ensures after.Keys == set k | k in before :: Moved(k, oldPath, newPath)
    ensures forall k :: k in before ==> after[Moved(k, oldPath, newPath)] == before[k]
  {
    forall k | k in before ensures after[Moved(k, oldPath, newPath)] == before[k] {
      assert SoleSource(before.Keys, k, oldPath, newPath);
    }
  }

  /** Keys are never merged when the entries outside `oldPath` do not start
      with the new path: moved keys keep distinct suffixes, and unmoved keys
      stay where they are. The rename check of the explorer only looks for
      the new path itself as a key, which does not exclude this. */
  lemma FreshTargetNoMerge(before: map<string, string>, after: map<string, string>,
                           oldPath: string, newPath: string)
    requires RenamedOn(before, before.Keys, after, oldPath, newPath)
    requires forall k :: k in before && !StartsWith(k, oldPath) ==> !StartsWith(k, newPath)
    ensures after.Keys == set k | k in before :: Moved(k, oldPath, newPath)
    ensures forall k :: k in before ==> after[Moved(k, oldPath, newPath)] == before[k]
  {
    forall k, k' | k in before && k' in before &&
      Moved(k, oldPath, newPath) == Moved(k', oldPath, newPath)
      ensures k == k'
    {
      if StartsWith(k, oldPath) && StartsWith(k', oldPath) {
        assert k[|oldPath|..] == k'[|oldPath|..];
        assert k == oldPath + k[|oldPath|..];
        assert k' == oldPath + k'[|oldPath|..];
      }
    }
    NoMerge(before, after, oldPath, newPath);
  }

  /** One step of the renaming loop keeps `RenamedOn`. */
  lemma RenameStep(before: map<string, string>, done: set<string>, after: map<string, string>,
                   oldPath: string, newPath: string, k: string)
    requires done <= before.Keys && k in before && k !in done
    requires RenamedOn(before, done, after, oldPath, newPath)
    ensures RenamedOn(before, done + {k}, after[Moved(k, oldPath, newPath) := before[k]],
                      oldPath, newPath)
  {
    var done' := done + {k};
    var key := Moved(k, oldPath, newPath);
    var after' := after[key := before[k]];
    forall x | x in after'
      ensures exists k' :: k' in done' && Moved(k', oldPath, newPath) == x && after'[x] == before[k']
    {
      if x != key {
        var k' :| k' in done && Moved(k', oldPath, newPath) == x && after[x] == before[k'];
        assert k' in done';
      } else {
        assert k in done';
      }
    }
    forall k' | k' in done' && SoleSource(done', k', oldPath, newPath)
      ensures after'[Moved(k', oldPath, newPath)] == before[k']
    {
      if k' != k {
        assert Moved(k', oldPath, newPath) != key;
        assert SoleSource(done, k', oldPath, newPath);
      }
    }
  }
}
