/** The explorer's view of the flat store: the folder hierarchy that
    `buildTree` derives from the keys, and the folders that are opened so
    that the selected entry is visible.

    A JavaScript tree node is an object whose children are stored under
    keys that are the child's name, followed by `/` for a folder. Here the
    whole tree is one map from the ADDRESS of a node (the sequence of child
    keys leading to it from the root) to the node's own fields; the
    `children` object of a folder is the set of addresses one key longer. */
module Explorer {
  import opened Paths

  datatype Kind = FolderNode | FileNode

  /** The fields `type`, `name` and `fullPath` of a tree node. */
  datatype Node = Node(kind: Kind, name: string, fullPath: string)

  /** The child keys under which `buildTree` files the segments of `path`. */
  function NodeKeys(path: string): (keys: seq<string>)
    ensures |keys| == |Segments(path)|
  {
    KeysOf(Segments(path), IsFolder(path))
  }

  /** The child keys of a run of segments: every segment but the last is a
      folder, and the last one is a folder when `folder` holds (the path
      ends with `/`). */
  function KeysOf(parts: seq<string>, folder: bool): (keys: seq<string>)
    ensures |keys| == |parts|
    ensures forall i :: 0 <= i < |keys| ==>
      keys[i] == parts[i] + (if i < |keys| - 1 || folder then "/" else "")
  {
    seq(|parts|, i requires 0 <= i < |parts| =>
      parts[i] + (if i < |parts| - 1 || folder then "/" else ""))
  }

  /** The keys of an address, written one after the other. */
  function Concat(address: seq<string>): string {
    if |address| == 0 then "" else Concat(address[..|address| - 1]) + address[|address| - 1]
  }

  /** The node at an address: a key ending in `/` is a folder named by the
      key without its `/`, and the full path is the keys written out. */
  function NodeFor(address: seq<string>): (n: Node)
    requires |address| > 0
    ensures n.fullPath == Concat(address)
  {
    var key := address[|address| - 1];
    if IsFolder(key) then Node(FolderNode, key[..|key| - 1], Concat(address))
    else Node(FileNode, key, Concat(address))
  }

  /** Every node of the tree is the node its address determines. */
  predicate Consistent(tree: map<seq<string>, Node>) {
    forall a {:trigger tree[a]} :: a in tree ==> |a| > 0 && tree[a] == NodeFor(a)
  }

  lemma ConsistentAdd(tree: map<seq<string>, Node>, a: seq<string>, node: Node)
    requires Consistent(tree) && |a| > 0 && node == NodeFor(a)
    ensures Consistent(tree[a := node])
  {
  }

  /** The addresses of the nodes on the way to `path`: one per segment. */
  function PathAddresses(path: string): (r: set<seq<string>>)
    ensures forall a :: a in r ==> 0 < |a| <= |NodeKeys(path)| && a == NodeKeys(path)[..|a|]
    ensures forall i :: 0 < i <= |NodeKeys(path)| ==> NodeKeys(path)[..i] in r
  {
    var keys := NodeKeys(path);
    set i | 0 < i <= |keys| :: keys[..i]
  }

  /** The non-empty prefixes of `keys` of length at most `n`. */
  function KeysUpTo(keys: seq<string>, n: nat): (r: set<seq<string>>)
    requires n <= |keys|
  {
    set i | 0 < i <= n :: keys[..i]
  }

  lemma KeysUpToNext(base: set<seq<string>>, visited: set<seq<string>>,
                     keys: seq<string>, n: nat, address: seq<string>)
    requires n < |keys| && visited == base + KeysUpTo(keys, n)
    requires address == keys[..n + 1]
    ensures visited + {address} == base + KeysUpTo(keys, n + 1)
  {
  }

  /** The addresses of the nodes the tree for `paths` holds. */
  function Addresses(paths: seq<string>): (r: set<seq<string>>)
    ensures forall a :: a in r ==> |a| > 0
  {
    if |paths| == 0 then {}
    else Addresses(paths[..|paths| - 1]) + PathAddresses(paths[|paths| - 1])
  }

  /** The full path `buildTree` stores for segment `i` is the node keys up
      to that segment written out. */
  lemma {:induction false} JoinedSegments(parts: seq<string>, folder: bool, i: nat)
    requires 0 < i <= |parts|
    ensures Concat(KeysOf(parts, folder)[..i]) ==
      Join(parts[..i], '/') + (if i < |parts| || folder then "/" else "")
  {
    var keys := KeysOf(parts, folder);
    if i == 1 {
      assert keys[..1][..0] == [];
    } else {
      JoinedSegments(parts, folder, i - 1);
      assert keys[..i][..i - 1] == keys[..i - 1];
      assert parts[..i][..i - 1] == parts[..i - 1];
    }
  }

  /** The node `buildTree` creates for segment `index` is the node its
      address determines. */
  lemma CreatedNode(parts: seq<string>, folder: bool, index: nat)
    requires forall i :: 0 <= i < |parts| ==> parts[i] != "" && '/' !in parts[i]
    requires index < |parts|
    ensures var isFolder := index < |parts| - 1 || folder;
      NodeFor(KeysOf(parts, folder)[..index + 1]) ==
        Node(if isFolder then FolderNode else FileNode, parts[index],
             Join(parts[..index + 1], '/') + (if isFolder then "/" else ""))
  {
    var keys := KeysOf(parts, folder);
    JoinedSegments(parts, folder, index + 1);
    assert keys[..index + 1][index] == keys[index];
  }

  /** `buildTree`: for every path, walk its segments from the root, create
      each node that is not there yet, and descend into folders. */
  method BuildTree(paths: seq<string>) returns (tree: map<seq<string>, Node>)
    ensures tree.Keys == Addresses(paths)
    ensures forall a :: a in tree ==> |a| > 0 && tree[a] == NodeFor(a)
  {
    tree := map[];
    var p := 0;
    while p < |paths|
      invariant p <= |paths|
      invariant tree.Keys == Addresses(paths[..p])
      invariant Consistent(tree)
    {
      var path := paths[p];
      assert paths[..p + 1][..p] == paths[..p];
      tree := AddPath(tree, path);
      p := p + 1;
    }
    assert paths[..p] == paths;
  }

  /** The body of `paths.forEach` in `buildTree`: the nodes of one path. */
  method AddPath(tree0: map<seq<string>, Node>, path: string) returns (tree: map<seq<string>, Node>)
    requires Consistent(tree0)
    ensures tree.Keys == tree0.Keys + PathAddresses(path)
    ensures Consistent(tree)
  {
    var parts := Segments(path);
    tree := AddParts(tree0, parts, IsFolder(path));
  }

  /** The inner `parts.forEach` of `buildTree`, from the root. */
  method AddParts(tree0: map<seq<string>, Node>, parts: seq<string>, endsWithSlash: bool)
    returns (tree: map<seq<string>, Node>)
    requires forall i :: 0 <= i < |parts| ==> parts[i] != "" && '/' !in parts[i]
    requires Consistent(tree0)
    ensures tree.Keys == tree0.Keys + KeysUpTo(KeysOf(parts, endsWithSlash), |parts|)
    ensures Consistent(tree)
  {
    tree := tree0;
    ghost var keys := KeysOf(parts, endsWithSlash);
    var currentNode: seq<string> := [];
    var index := 0;
    while index < |parts|
      invariant index <= |parts|
      invariant index < |parts| ==> currentNode == keys[..index]
      invariant tree.Keys == tree0.Keys + KeysUpTo(keys, index)
      invariant Consistent(tree)
    {
      ghost var before := tree.Keys;
      tree, currentNode := VisitPart(tree, parts, endsWithSlash, index, currentNode);
      KeysUpToNext(tree0.Keys, before, keys, index, keys[..index + 1]);
      index := index + 1;
    }
  }

  /** One call of the callback of the inner `parts.forEach`: make sure the
      node for segment `index` exists under the current node, and descend
      into it when it is a folder. */
  method VisitPart(tree0: map<seq<string>, Node>, parts: seq<string>, endsWithSlash: bool,
                   index: nat, currentNode0: seq<string>)
    returns (tree: map<seq<string>, Node>, currentNode: seq<string>)
    requires forall i :: 0 <= i < |parts| ==> parts[i] != "" && '/' !in parts[i]
    requires index < |parts| && currentNode0 == KeysOf(parts, endsWithSlash)[..index]
    requires Consistent(tree0)
    ensures tree.Keys == tree0.Keys + {KeysOf(parts, endsWithSlash)[..index + 1]}
    ensures Consistent(tree)
    ensures index + 1 < |parts| ==> currentNode == KeysOf(parts, endsWithSlash)[..index + 1]
  {
    ghost var keys := KeysOf(parts, endsWithSlash);
    tree, currentNode := tree0, currentNode0;
    var part := parts[index];
    var isFolder := index < |parts| - 1 || endsWithSlash;
    var name := part + (if isFolder then "/" else "");
    assert currentNode + [name] == keys[..index + 1];
    if currentNode + [name] !in tree {
      var node := MakeNode(parts, endsWithSlash, index);
      ConsistentAdd(tree, currentNode + [name], node);
      tree := tree[currentNode + [name] := node];
    }
    if isFolder {
      currentNode := currentNode + [name];
    }
  }

  /** The object literal `buildTree` stores for segment `index`. */
  method MakeNode(parts: seq<string>, endsWithSlash: bool, index: nat) returns (node: Node)
    requires forall i :: 0 <= i < |parts| ==> parts[i] != "" && '/' !in parts[i]
    requires index < |parts|
    ensures node == NodeFor(KeysOf(parts, endsWithSlash)[..index + 1])
  {
    var isFolder := index < |parts| - 1 || endsWithSlash;
    node := Node(if isFolder then FolderNode else FileNode, parts[index],
                 Join(parts[..index + 1], '/') + (if isFolder then "/" else ""));
    CreatedNode(parts, endsWithSlash, index);
  }

  /** Every node but a top-level one hangs under a folder node: the address
      one key shorter is in the tree and names a folder. */
  lemma ParentIsFolder(paths: seq<string>, a: seq<string>)
    requires a in Addresses(paths) && |a| > 1
    ensures var parent := a[..|a| - 1];
      parent in Addresses(paths) && NodeFor(parent).kind == FolderNode
  {
    var path := PathOf(paths, a);
    var keys := NodeKeys(path);
    var i := |a|;
    assert a[..i - 1] == keys[..i - 1];
    AddressOfPath(paths, path, i - 1);
    InnerKeyIsFolder(Segments(path), IsFolder(path), i - 1);
  }

  /** The last key of a proper prefix of the keys names a folder. */
  lemma InnerKeyIsFolder(parts: seq<string>, folder: bool, i: nat)
    requires 0 < i < |parts|
    ensures IsFolder(KeysOf(parts, folder)[..i][i - 1])
  {
    var keys := KeysOf(parts, folder);
    assert keys[..i][i - 1] == keys[i - 1] == parts[i - 1] + "/";
  }

  /** A file node is a leaf: no node lies below it. */
  lemma FileIsLeaf(paths: seq<string>, a: seq<string>, b: seq<string>)
    requires a in Addresses(paths) && b in Addresses(paths)
    requires NodeFor(a).kind == FileNode
    ensures !(|a| < |b| && b[..|a|] == a)
  {
    if |a| < |b| && b[..|a|] == a {
      var path := PathOf(paths, b);
    }
  }

  /** Every node the tree has comes from one of the paths. */
  lemma PathOf(paths: seq<string>, a: seq<string>) returns (path: string)
    requires a in Addresses(paths)
    ensures path in paths && a in PathAddresses(path)
    decreases |paths|
  {
    var init := paths[..|paths| - 1];
    if a in PathAddresses(paths[|paths| - 1]) {
      path := paths[|paths| - 1];
    } else {
      path := PathOf(init, a);
      assert path in paths by {
        var k :| 0 <= k < |init| && init[k] == path;
        assert paths[k] == path;
      }
    }
  }

  /** Every prefix of the node keys of a listed path is a node of the tree. */
  lemma {:induction false} AddressOfPath(paths: seq<string>, path: string, i: nat)
    requires path in paths && 0 < i <= |NodeKeys(path)|
    ensures NodeKeys(path)[..i] in Addresses(paths)
    decreases |paths|
  {
    if paths[|paths| - 1] != path {
      var init := paths[..|paths| - 1];
      assert path in init by {
        var k :| 0 <= k < |paths| && paths[k] == path;
        assert init[k] == path;
      }
      AddressOfPath(init, path, i);
    }
  }

  /** Every well-formed key of the store is shown: the tree built from the
      keys has a node whose full path is that key, a folder exactly when the
      key ends with `/`. */
  lemma KeyIsShown(paths: seq<string>, key: string)
    requires key in paths && WellFormed(key)
    ensures var keys := NodeKeys(key);
      && |keys| > 0
      && keys in Addresses(paths)
      && NodeFor(keys).fullPath == key
      && (NodeFor(keys).kind == FolderNode <==> IsFolder(key))
  {
    var keys := NodeKeys(key);
    WellFormedKeys(key);
    AddressOfPath(paths, key, |keys|);
    assert keys[..|keys|] == keys;
  }

  /** The keys of a well-formed path, written out, are the path. */
  lemma WellFormedKeys(key: string)
    requires WellFormed(key)
    ensures var keys := NodeKeys(key);
      && |keys| > 0
      && Concat(keys) == key
      && (IsFolder(keys[|keys| - 1]) <==> IsFolder(key))
  {
    SegmentsOfWellFormed(key);
    WholeKeys(Segments(key), IsFolder(key));
  }

  /** All the keys of a run of segments: written out they are the joined
      segments, followed by `/` for a folder, and the last key names a
      folder exactly then. */
  lemma WholeKeys(parts: seq<string>, folder: bool)
    requires |parts| > 0
    requires forall i :: 0 <= i < |parts| ==> parts[i] != "" && '/' !in parts[i]
    ensures var keys := KeysOf(parts, folder);
      && Concat(keys) == Join(parts, '/') + (if folder then "/" else "")
      && (IsFolder(keys[|keys| - 1]) <==> folder)
  {
    var keys := KeysOf(parts, folder);
    var n := |parts|;
    JoinedSegments(parts, folder, n);
    assert keys[..n] == keys;
    assert parts[..n] == parts;
    var last := keys[n - 1];
    if !folder {
      assert last == parts[n - 1];
      assert !IsFolder(last);
    }
  }

  /** The tree does not depend on the order of the keys, so the `sort()`
      before `buildTree` only fixes the order siblings are shown in: two
      listings of the same keys give the same nodes. */
  lemma {:induction false} OrderIrrelevant(paths: seq<string>, paths': seq<string>)
    requires forall p :: p in paths <==> p in paths'
    ensures Addresses(paths) == Addresses(paths')
  {
    forall a | a in Addresses(paths) ensures a in Addresses(paths') {
      var p := PathOf(paths, a);
      AddressOfPath(paths', p, |a|);
    }
    forall a | a in Addresses(paths') ensures a in Addresses(paths) {
      var p := PathOf(paths', a);
      AddressOfPath(paths, p, |a|);
    }
  }

  /** Joining a longer run of segments extends the shorter join by `/` and
      the rest. */
  lemma {:induction false} JoinPrefix(parts: seq<string>, i: nat, j: nat)
    requires 0 < i < j <= |parts|
    ensures Join(parts[..i], '/') + "/" <= Join(parts[..j], '/')
    decreases j
  {
    assert parts[..j][..j - 1] == parts[..j - 1];
    if i < j - 1 {
      JoinPrefix(parts, i, j - 1);
    }
  }

  /** The folders above a shown key: every node on the way to a well-formed
      key is a folder whose full path is a `/`-terminated prefix of the key,
      which is exactly what the walk after rendering looks up. */
  lemma AncestorsShown(paths: seq<string>, key: string, i: nat)
    requires key in paths && WellFormed(key)
    requires 0 < i < |NodeKeys(key)|
    ensures var a := NodeKeys(key)[..i];
      && a in Addresses(paths)
      && NodeFor(a).kind == FolderNode
      && IsFolder(NodeFor(a).fullPath)
      && StartsWith(key, NodeFor(a).fullPath)
  {
    AddressOfPath(paths, key, i);
    JoinBeginsKey(key);
    InnerKeyIsFolder(Segments(key), IsFolder(key), i);
    InnerKeysPrefix(Segments(key), IsFolder(key), i);
  }

  /** A well-formed key begins with its joined segments. */
  lemma JoinBeginsKey(key: string)
    requires WellFormed(key)
    ensures Join(Segments(key), '/') <= key
  {
    SegmentsOfWellFormed(key);
  }

  /** The keys of a proper prefix, written out, are the joined segments up
      to there followed by `/`, which begins the join of all segments. */
  lemma InnerKeysPrefix(parts: seq<string>, folder: bool, i: nat)
    requires 0 < i < |parts|
    ensures var full := Concat(KeysOf(parts, folder)[..i]);
      IsFolder(full) && full <= Join(parts, '/')
  {
    JoinedSegments(parts, folder, i);
    JoinPrefix(parts, i, |parts|);
    assert parts[..|parts|] == parts;
  }

  /** The walk after rendering: while the path still contains `/`, cut it
      at its last `/` and open the folder element for the part before it.
      The result is the list of folder paths whose elements are looked up. */
  method ExpandAncestors(activePath: string) returns (folders: seq<string>)
    ensures forall i :: 0 <= i < |folders| ==>
      IsFolder(folders[i]) && StartsWith(activePath, folders[i])
    ensures forall k :: 0 <= k < |activePath| && activePath[k] == '/' ==>
      activePath[..k + 1] in folders
    ensures forall i, j :: 0 <= i < j < |folders| ==> |folders[j]| < |folders[i]|
  {
    folders := [];
    var currentPath := activePath;
    while '/' in currentPath
      invariant StartsWith(activePath, currentPath)
      invariant forall i :: 0 <= i < |folders| ==>
        IsFolder(folders[i]) && StartsWith(activePath, folders[i]) && |currentPath| < |folders[i]|
      invariant forall k :: |currentPath| <= k < |activePath| && activePath[k] == '/' ==>
        activePath[..k + 1] in folders
      invariant forall i, j :: 0 <= i < j < |folders| ==> |folders[j]| < |folders[i]|
      decreases |currentPath|
    {
      var lastSlashIndex := LastIndexOf(currentPath, '/');
      var parentPath := currentPath[..lastSlashIndex];
      assert activePath[lastSlashIndex] == '/';
      assert parentPath + "/" == activePath[..lastSlashIndex + 1];
      folders := folders + [parentPath + "/"];
      currentPath := parentPath;
    }
  }
}
