/** Concrete runs of the explorer's operations on small stores, including
    the behaviours that follow from the raw prefix tests of the store. */
module Scenarios {
  import opened Paths
  import opened FileStore

  /** Adding `a.js` to the folder `src/` twice: the second attempt finds the
      key and is refused. */
  method AddTwice() returns (first: Outcome, second: Outcome, tree: map<string, string>)
    ensures first == Applied && second == NameConflict
    ensures tree == map["src/a.js" := ""]
  {
    var p := new Project(map[], "");
    assert NewFilePath("src/", "a.js") == "src/a.js";
    first := p.AddFile("src/", "a.js");
    second := p.AddFile("src/", "a.js");
    tree := p.fileTree;
  }

  /** Renaming the folder `src/` to `lib` moves both files under `lib/`
      with their contents, and the selected file with them. */
  method RenameFolder() returns (outcome: Outcome, tree: map<string, string>, active: string)
    ensures outcome == Applied
    ensures tree.Keys == {"lib/a.js", "lib/b.js"} && tree["lib/a.js"] == "1" && tree["lib/b.js"] == "2"
    ensures active == "lib/a.js"
  {
    var before := map["src/a.js" := "1", "src/b.js" := "2"];
    var p := new Project(before, "src/a.js");
    assert "src/"[..3] == "src" && "lib/" == "lib" + "/";
    TopFolderRename(before, "src/", "lib", "lib/");
    var newPath;
    outcome, newPath := p.Rename("src/", "lib");
    tree := p.fileTree;
    active := p.activeFilePath;
    SrcToLibMoved(before, tree);
  }

  lemma SrcToLibMoved(before: map<string, string>, after: map<string, string>)
    requires before == map["src/a.js" := "1", "src/b.js" := "2"]
    requires RenamedOn(before, before.Keys, after, "src/", "lib/")
    ensures after.Keys == {"lib/a.js", "lib/b.js"} && after["lib/a.js"] == "1" && after["lib/b.js"] == "2"
    ensures Moved("src/a.js", "src/", "lib/") == "lib/a.js"
  {
    assert Moved("src/a.js", "src/", "lib/") == "lib/a.js";
    assert Moved("src/b.js", "src/", "lib/") == "lib/b.js";
    RenamedTwo(before, after, "src/", "lib/", "src/a.js", "src/b.js");
  }

  /** Deleting the selected file empties the store and the selection. */
  method DeleteActive() returns (tree: map<string, string>, active: string)
    ensures tree == map[] && active == ""
  {
    var p := new Project(map["a.js" := "x"], "a.js");
    p.DeleteFile("a.js", true);
    tree := p.fileTree;
    active := p.activeFilePath;
  }

  /** Renaming the folder `a/` to `b` while `b/x` exists: the new path `b/`
      is not itself a key, so the rename goes ahead, and `a/x` and `b/x` end
      up under the one key `b/x` holding one of the two contents. */
  method MergingRename() returns (outcome: Outcome, tree: map<string, string>)
    ensures outcome == Applied
    ensures tree.Keys == {"b/x"}
    ensures tree["b/x"] == "1" || tree["b/x"] == "2"
  {
    var before := map["a/x" := "1", "b/x" := "2"];
    var p := new Project(before, "");
    assert "a/"[..1] == "a" && "b/" == "b" + "/";
    TopFolderRename(before, "a/", "b", "b/");
    var newPath;
    outcome, newPath := p.Rename("a/", "b");
    tree := p.fileTree;
    AToBMerged(before, tree);
  }

  lemma AToBMerged(before: map<string, string>, after: map<string, string>)
    requires before == map["a/x" := "1", "b/x" := "2"]
    requires RenamedOn(before, before.Keys, after, "a/", "b/")
    ensures after.Keys == {"b/x"}
    ensures after["b/x"] == "1" || after["b/x"] == "2"
  {
    assert Moved("a/x", "a/", "b/") == "b/x";
    assert Moved("b/x", "a/", "b/") == "b/x";
    forall key | key in after ensures key == "b/x" {
      var k :| k in before.Keys && Moved(k, "a/", "b/") == key && after[key] == before[k];
    }
  }

  /** Renaming the nested file `src/a.js` to `b.js`: the parent is joined to
      the new name without a separator, so the file becomes `srcb.js`, and
      the selection follows it. */
  method NestedFileRename() returns (outcome: Outcome, tree: map<string, string>, active: string)
    ensures outcome == Applied
    ensures tree.Keys == {"srcb.js"} && tree["srcb.js"] == "1"
    ensures active == "srcb.js"
  {
    var before := map["src/a.js" := "1"];
    var p := new Project(before, "src/a.js");
    NestedTarget(before);
    var newPath;
    outcome, newPath := p.Rename("src/a.js", "b.js");
    tree := p.fileTree;
    active := p.activeFilePath;
    NestedMoved(before, tree);
  }

  lemma NestedTarget(before: map<string, string>)
    requires before == map["src/a.js" := "1"]
    ensures RenameTarget("src/a.js", "b.js") == "srcb.js"
    ensures RenameOutcome(before, "src/a.js", "b.js") == Applied
    ensures Moved("src/a.js", "src/a.js", "srcb.js") == "srcb.js"
  {
    var s := "src/a.js";
    assert s[3] == '/' && '/' !in s[4..];
    LastIndexOfIs(s, '/', 3);
    assert s[4..] == "a.js";
    assert s[..3] == "src";
    assert RenameOldName(s) == "a.js";
  }

  lemma NestedMoved(before: map<string, string>, after: map<string, string>)
    requires before == map["src/a.js" := "1"]
    requires RenamedOn(before, before.Keys, after, "src/a.js", "srcb.js")
    ensures after.Keys == {"srcb.js"} && after["srcb.js"] == "1"
  {
    assert Moved("src/a.js", "src/a.js", "srcb.js") == "srcb.js";
    RenamedOne(before, after, "src/a.js", "srcb.js", "src/a.js");
  }

  /** Renaming the file `a.js` to `b.js` also renames `a.js.bak`, whose
      key merely starts with the same characters. */
  method PrefixRename() returns (outcome: Outcome, tree: map<string, string>)
    ensures outcome == Applied
    ensures tree.Keys == {"b.js", "b.js.bak"} && tree["b.js"] == "1" && tree["b.js.bak"] == "2"
  {
    var before := map["a.js" := "1", "a.js.bak" := "2"];
    var p := new Project(before, "");
    TopFileRename(before, "a.js", "b.js");
    var newPath;
    outcome, newPath := p.Rename("a.js", "b.js");
    tree := p.fileTree;
    PrefixMoved(before, tree);
  }

  lemma PrefixMoved(before: map<string, string>, after: map<string, string>)
    requires before == map["a.js" := "1", "a.js.bak" := "2"]
    requires RenamedOn(before, before.Keys, after, "a.js", "b.js")
    ensures after.Keys == {"b.js", "b.js.bak"} && after["b.js"] == "1" && after["b.js.bak"] == "2"
  {
    assert Moved("a.js", "a.js", "b.js") == "b.js";
    assert Moved("a.js.bak", "a.js", "b.js") == "b.js.bak";
    RenamedTwo(before, after, "a.js", "b.js", "a.js", "a.js.bak");
  }

  /** Renaming a top-level folder to a different name whose folder path
      is not a key goes ahead, onto that folder path. */
  lemma TopFolderRename(before: map<string, string>, folder: string, newName: string, newFolder: string)
    requires IsFolder(folder) && '/' !in folder[..|folder| - 1]
    requires newName != "" && newName != folder[..|folder| - 1]
    requires newFolder == newName + "/" && newFolder !in before
    ensures RenameTarget(folder, newName) == newFolder
    ensures RenameOutcome(before, folder, newName) == Applied
  {
    var name := folder[..|folder| - 1];
    assert folder == name + "/";
    TopFolder(name, newName);
  }

  /** Renaming a top-level file to a different name that is not a key goes
      ahead, onto that name. */
  lemma TopFileRename(before: map<string, string>, name: string, newName: string)
    requires '/' !in name && name != ""
    requires newName != "" && newName != name && newName !in before
    ensures RenameTarget(name, newName) == newName
    ensures RenameOutcome(before, name, newName) == Applied
  {
    TopFile(name, newName);
  }

  /** The rename target of a top-level folder `name/` is `newName/`. */
  lemma TopFolder(name: string, newName: string)
    requires '/' !in name
    ensures RenameOldName(name + "/") == name
    ensures RenameTarget(name + "/", newName) == newName + "/"
  {
    NoSlash(name);
    assert (name + "/")[..|name|] == name;
  }

  /** The rename target of a top-level file `name` is `newName`. */
  lemma TopFile(name: string, newName: string)
    requires '/' !in name && name != ""
    ensures RenameOldName(name) == name
    ensures RenameTarget(name, newName) == newName
  {
    NoSlash(name);
  }

  /** Renaming a store of two entries moved onto two different keys. */
  lemma RenamedTwo(before: map<string, string>, after: map<string, string>,
                   oldPath: string, newPath: string, k1: string, k2: string)
    requires before.Keys == {k1, k2} && k1 != k2
    requires Moved(k1, oldPath, newPath) != Moved(k2, oldPath, newPath)
    requires RenamedOn(before, before.Keys, after, oldPath, newPath)
    ensures after.Keys == {Moved(k1, oldPath, newPath), Moved(k2, oldPath, newPath)}
    ensures after[Moved(k1, oldPath, newPath)] == before[k1]
    ensures after[Moved(k2, oldPath, newPath)] == before[k2]
  {
    var m1, m2 := Moved(k1, oldPath, newPath), Moved(k2, oldPath, newPath);
    forall key | key in after ensures key == m1 || key == m2 {
      var k :| k in before.Keys && Moved(k, oldPath, newPath) == key && after[key] == before[k];
    }
    assert SoleSource(before.Keys, k1, oldPath, newPath) by {
      forall k | k in before.Keys && Moved(k, oldPath, newPath) == m1 ensures k == k1 {
        assert k == k1 || k == k2;
      }
    }
    assert SoleSource(before.Keys, k2, oldPath, newPath) by {
      forall k | k in before.Keys && Moved(k, oldPath, newPath) == m2 ensures k == k2 {
        assert k == k1 || k == k2;
      }
    }
  }

  /** Renaming a store of one entry. */
  lemma RenamedOne(before: map<string, string>, after: map<string, string>,
                   oldPath: string, newPath: string, k: string)
    requires before.Keys == {k}
    requires RenamedOn(before, before.Keys, after, oldPath, newPath)
    ensures after.Keys == {Moved(k, oldPath, newPath)}
    ensures after[Moved(k, oldPath, newPath)] == before[k]
  {
    assert SoleSource(before.Keys, k, oldPath, newPath);
  }

  /** A name without `/` has no last `/`. */
  lemma NoSlash(s: string)
    requires '/' !in s
    ensures LastIndexOf(s, '/') == -1
  {
    LastIndexOfAppend("", s, '/');
    assert "" + s == s;
  }
}
