/** The mutable directory builder: a tree of objects, each with three maps. */
module NestedDirectories {
  import opened Paths
  import opened CasHash
  import opened StringOrder
  import opened NestedTree
  import opened PathMaps
  import opened Messages

  class NestedDirectory {
    var files: map<string, File>
    var symlinks: map<string, string>
    var subdirs: map<string, NestedDirectory>

    /** The value of the tree, and the objects it is made of. */
    ghost var tree: Nested
    ghost var Repr: set<object>

    /** The children share no objects. */
    ghost predicate Apart()
      reads this, subdirs.Values
    {
      forall j, k :: j in subdirs && k in subdirs && j != k ==> subdirs[j].Repr !! subdirs[k].Repr
    }

    ghost predicate Valid()
      reads this, Repr
      decreases Repr
    {
      && this in Repr
      && files == tree.files && symlinks == tree.symlinks && subdirs.Keys == tree.subdirs.Keys
      && (forall k :: k in subdirs ==>
            && subdirs[k] in Repr && subdirs[k].Repr <= Repr && this !in subdirs[k].Repr
            && subdirs[k].tree == tree.subdirs[k]
            && subdirs[k].Valid())
      && Apart()
    }

    constructor ()
      ensures Valid() && fresh(Repr) && tree == EMPTY
    {
      files, symlinks, subdirs := map[], map[], map[];
      tree := EMPTY;
      Repr := {this};
    }

    /** Adds one item in place; the same walk for files, symlinks and directories. */
    method AddItem(item: Item, path: string)
      requires Valid()
      modifies Repr
      ensures Valid() && fresh(Repr - old(Repr))
      ensures tree == Add(old(tree), item, path)
      decreases |path|, 0
    {
      if item.DirItem? && path == "/" {
        return;
      }
      var slash := FindSlash(path);
      if slash == |path| {
        AddHere(item, path);
      } else {
        var key := path[..slash];
        if key == "" {
          AddItem(item, path[slash + 1..]);
        } else {
          AddBelow(item, key, path[slash + 1..]);
        }
      }
    }

    method AddHere(item: Item, name: string)
      requires Valid()
      modifies Repr
      ensures Valid() && fresh(Repr - old(Repr))
      ensures tree == PutHere(old(tree), item, name)
    {
      hide Valid;
      Parts();
      match item {
        case FileItem(file) =>
          files := files[name := file];
        case LinkItem(target) =>
          symlinks := symlinks[name := target];
        case DirItem =>
          EnsureChild(name);
          return;
      }
      tree := PutHere(tree, item, name);
      forall k | k in subdirs
        ensures Holds(k)
      {
        assert old(Holds(k));
      }
      hide Holds;
      Whole();
    }

    /** The child under this name, default-constructed if there is none yet. */
    method EnsureChild(name: string)
      requires Valid()
      modifies Repr
      ensures Valid() && fresh(Repr - old(Repr))
      ensures name in subdirs && tree == PutHere(old(tree), DirItem, name)
    {
      if name !in subdirs {
        hide Valid;
        var child := new NestedDirectory();
        child.InOwnRepr();
        Attach(name, child);
      }
    }

    /** Puts a child made of other objects under a name not in use. */
    method Attach(name: string, child: NestedDirectory)
      requires Valid() && name !in subdirs
      requires child.Valid() && child in child.Repr && child.Repr !! Repr && child.tree == EMPTY
      modifies this
      ensures Valid() && Repr == old(Repr) + child.Repr
      ensures name in subdirs && tree == PutHere(old(tree), DirItem, name)
    {
      subdirs := subdirs[name := child];
      Repr := Repr + child.Repr;
      tree := PutHere(tree, DirItem, name);
    }

    method AddBelow(item: Item, key: string, rest: string)
      requires Valid()
      modifies Repr
      ensures Valid() && fresh(Repr - old(Repr))
      ensures tree == old(tree).(subdirs := old(tree).subdirs[key := Add(Child(old(tree), key), item, rest)])
      decreases |rest|, 3
    {
      hide Valid, Add;
      EnsureChild(key);
      AddToChild(item, key, rest);
    }

    method AddToChild(item: Item, key: string, rest: string)
      requires Valid() && key in subdirs
      modifies Repr
      ensures Valid() && fresh(Repr - old(Repr))
      ensures tree == old(tree).(subdirs := old(tree).subdirs[key := Add(old(tree).subdirs[key], item, rest)])
      decreases |rest|, 2
    {
      hide Add, Apart, Valid, Disjoint;
      assert this in Repr && subdirs[key].Repr <= Repr && subdirs[key].tree == tree.subdirs[key] by {
        Parts();
        assert Holds(key);
      }
      ghost var reprs := Shares();
      AddInside(item, key, rest, reprs);
      label Inside:
      Repr := Repr + subdirs[key].Repr;
      tree := tree.(subdirs := tree.subdirs[key := subdirs[key].tree]);
      forall k | k in subdirs && k != key
        ensures Holds(k) && subdirs[k].Repr == reprs[k]
      {
        assert old@Inside(Holds(k) && subdirs[k].Repr == reprs[k]);
      }
      Regrown(key, reprs);
    }

    lemma Regrown(key: string, reprs: map<string, set<object>>)
      requires Parted() && reprs.Keys == subdirs.Keys
      requires Disjoint(reprs)
      requires key in subdirs && Holds(key)
      requires forall k :: k in subdirs && k != key ==>
                 Holds(k) && subdirs[k].Repr == reprs[k] && reprs[k] !! subdirs[key].Repr
      ensures Valid()
    {
      hide Holds, Apart, Disjoint;
      StillApart(key, reprs);
      Whole();
    }

    /** Adding inside one child leaves its siblings, and this object's fields, alone. */
    method AddInside(item: Item, key: string, path: string, ghost reprs: map<string, set<object>>)
      requires Valid() && key in subdirs && reprs == Shares()
      modifies subdirs[key].Repr
      ensures unchanged(this) && Parted()
      ensures var child := subdirs[key];
              && child.Valid() && this !in child.Repr && child in child.Repr && fresh(child.Repr - reprs[key])
              && child.tree == Add(old(subdirs[key].tree), item, path)
              && forall k :: k in subdirs && k != key ==> reprs[k] !! child.Repr
      ensures forall k :: k in subdirs && k != key ==> Holds(k) && subdirs[k].Repr == reprs[k]
      decreases |path|, 1
    {
      hide Add, Apart, Valid;
      Parts();
      var child := subdirs[key];
      assert Holds(key);
      child.AddItem(item, path);
      child.InOwnRepr();
      forall k | k in subdirs && k != key
        ensures Holds(k) && subdirs[k].Repr == reprs[k]
      {
        assert old(Holds(k)) && reprs[k] !! reprs[key];
      }
    }

    /** What holds of the fields of this object alone. */
    ghost predicate Parted()
      reads this
    {
      && this in Repr && subdirs.Values <= Repr
      && files == tree.files && symlinks == tree.symlinks && subdirs.Keys == tree.subdirs.Keys
    }

    /** The child under this name belongs to the tree. */
    ghost predicate Holds(name: string)
      requires name in subdirs && name in tree.subdirs
      reads this, Repr, subdirs[name], subdirs[name].Repr
    {
      var child := subdirs[name];
      && child in Repr && child.Repr <= Repr && this !in child.Repr && child in child.Repr
      && child.tree == tree.subdirs[name] && child.Valid()
    }

    lemma InOwnRepr()
      requires Valid()
      ensures this in Repr
    {
    }

    lemma Parts()
      requires Valid()
      ensures this in Repr && Apart()
      ensures files == tree.files && symlinks == tree.symlinks && subdirs.Keys == tree.subdirs.Keys
      ensures forall k :: k in subdirs ==> Holds(k)
    {
    }

    lemma Whole()
      requires this in Repr && Apart()
      requires files == tree.files && symlinks == tree.symlinks && subdirs.Keys == tree.subdirs.Keys
      requires forall k :: k in subdirs ==> Holds(k)
      ensures Valid()
    {
    }

    /** The objects each child is made of. */
    ghost function Shares(): (m: map<string, set<object>>)
      requires Valid()
      reads this, Repr
      ensures m.Keys == subdirs.Keys && forall k :: k in m ==> m[k] == subdirs[k].Repr
      ensures Disjoint(m)
    {
      map k | k in subdirs :: subdirs[k].Repr
    }

    /** A child that is new or grew away from its siblings' objects shares none with them. */
    lemma StillApart(key: string, before: map<string, set<object>>)
      requires key in subdirs && before.Keys == subdirs.Keys
      requires Disjoint(before)
      requires forall k :: k in subdirs && k != key ==> subdirs[k].Repr == before[k] && subdirs[key].Repr !! before[k]
      ensures Apart()
    {
    }

    method FileList() returns (nodes: seq<FileNode>)
      requires Valid()
      ensures nodes == FileNodes(tree.files)
    {
      hide Valid, SortedKeys, Sorted;
      Parts();
      var keys := SortedKeys(files.Keys);
      nodes := [];
      for i := 0 to |keys|
        invariant nodes == FileNodes(files)[..i]
      {
        assert keys[i] in keys;
        nodes := nodes + [FileNode(keys[i], files[keys[i]])];
      }
    }

    method SymlinkList() returns (nodes: seq<SymlinkNode>)
      requires Valid()
      ensures nodes == SymlinkNodes(tree.symlinks)
    {
      hide Valid, SortedKeys, Sorted;
      Parts();
      var keys := SortedKeys(symlinks.Keys);
      nodes := [];
      for i := 0 to |keys|
        invariant nodes == SymlinkNodes(symlinks)[..i]
      {
        assert keys[i] in keys;
        nodes := nodes + [SymlinkNode(keys[i], symlinks[keys[i]])];
      }
    }

    /** Digest of the directory; the messages of it and everything below go into the map. */
    method ToDigestStoring(g: Digester, digestMap: Blobs) returns (digest: DigestKey, stored: Blobs)
      requires Valid()
      ensures digest == ToDigest(g, tree) && stored == StoreBlobs(g, tree, digestMap)
      decreases Repr, 1
    {
      hide Valid, FileNodes, SymlinkNodes, SubdirKeys, DirectoryNodes, StoreChildren;
      var fileNodes := FileList();
      var symlinkNodes := SymlinkList();
      var nodes;
      nodes, stored := SubdirList(g, digestMap);
      var message := Directory(fileNodes, symlinkNodes, nodes);
      digest := g(message);
      stored := stored[digest := message];
    }

    method SubdirList(g: Digester, digestMap: Blobs) returns (nodes: seq<DirectoryNode>, stored: Blobs)
      requires Valid()
      ensures nodes == DirectoryNodes(g, tree, SubdirKeys(tree))
      ensures stored == StoreChildren(g, tree, SubdirKeys(tree), digestMap)
      decreases Repr, 0
    {
      hide Valid, Apart, SubdirKeys, SortedKeys, Sorted, DirectoryNodes, StoreChildren, ToDigest, StoreBlobs;
      Parts();
      var keys := SortedKeys(subdirs.Keys);
      SubdirKeysAre(tree);
      NoSubdirs(g, tree, digestMap);
      nodes, stored := [], digestMap;
      for i := 0 to |keys|
        invariant nodes == DirectoryNodes(g, tree, keys[..i])
        invariant stored == StoreChildren(g, tree, keys[..i], digestMap)
      {
        NextSubdir(g, tree, keys, i, digestMap);
        var sub := subdirs[keys[i]];
        var subDigest;
        subDigest, stored := sub.ToDigestStoring(g, stored);
        nodes := nodes + [DirectoryNode(keys[i], subDigest)];
      }
      WholeList(keys);
    }

    /** The Tree message of the directory. */
    method ToTreeMessage(g: Digester) returns (message: TreeMessage)
      requires Valid()
      ensures message == ToTree(g, tree)
      decreases Repr, 1
    {
      hide Valid, FileNodes, SymlinkNodes, SubdirKeys, TreeNodes, TreeChildren;
      var fileNodes := FileList();
      var symlinkNodes := SymlinkList();
      var nodes, children := SubtreeList(g);
      message := TreeMessage(Directory(fileNodes, symlinkNodes, nodes), children);
    }

    method SubtreeList(g: Digester) returns (nodes: seq<DirectoryNode>, children: seq<Directory>)
      requires Valid()
      ensures nodes == TreeNodes(g, tree, SubdirKeys(tree))
      ensures children == TreeChildren(g, tree, SubdirKeys(tree))
      decreases Repr, 0
    {
      hide Valid, Apart, SubdirKeys, SortedKeys, Sorted, TreeNodes, TreeChildren, ToTree;
      Parts();
      var keys := SortedKeys(subdirs.Keys);
      SubdirKeysAre(tree);
      NoSubtrees(g, tree);
      nodes, children := [], [];
      for i := 0 to |keys|
        invariant nodes == TreeNodes(g, tree, keys[..i])
        invariant children == TreeChildren(g, tree, keys[..i])
      {
        NextSubtree(g, tree, keys, i);
        var sub := subdirs[keys[i]];
        var subtree := sub.ToTreeMessage(g);
        children := children + subtree.children + [subtree.root];
        nodes := nodes + [DirectoryNode(keys[i], g(subtree.root))];
      }
      WholeList(keys);
    }
  }

  ghost predicate Disjoint(reprs: map<string, set<object>>) {
    forall j, k :: j in reprs && k in reprs && j != k ==> reprs[j] !! reprs[k]
  }

  lemma WholeList(keys: seq<string>)
    ensures keys[..|keys|] == keys
  {
  }

  lemma NoSubdirs(g: Digester, nd: Nested, m: Blobs)
    ensures DirectoryNodes(g, nd, []) == [] && StoreChildren(g, nd, [], m) == m
  {
  }

  lemma NextSubdir(g: Digester, nd: Nested, keys: seq<string>, i: nat, m: Blobs)
    requires i < |keys| && forall j :: 0 <= j < |keys| ==> keys[j] in nd.subdirs
    ensures DirectoryNodes(g, nd, keys[..i + 1])
         == DirectoryNodes(g, nd, keys[..i]) + [DirectoryNode(keys[i], ToDigest(g, nd.subdirs[keys[i]]))]
    ensures StoreChildren(g, nd, keys[..i + 1], m)
         == StoreBlobs(g, nd.subdirs[keys[i]], StoreChildren(g, nd, keys[..i], m))
  {
    hide ToDigest, StoreBlobs;
    assert keys[..i + 1][..i] == keys[..i];
  }

  lemma NoSubtrees(g: Digester, nd: Nested)
    ensures TreeNodes(g, nd, []) == [] && TreeChildren(g, nd, []) == []
  {
  }

  lemma NextSubtree(g: Digester, nd: Nested, keys: seq<string>, i: nat)
    requires i < |keys| && forall j :: 0 <= j < |keys| ==> keys[j] in nd.subdirs
    ensures var sub := ToTree(g, nd.subdirs[keys[i]]);
            && TreeNodes(g, nd, keys[..i + 1]) == TreeNodes(g, nd, keys[..i]) + [DirectoryNode(keys[i], g(sub.root))]
            && TreeChildren(g, nd, keys[..i + 1]) == TreeChildren(g, nd, keys[..i]) + sub.children + [sub.root]
  {
    hide ToTree;
    assert keys[..i + 1][..i] == keys[..i];
  }

  lemma SubdirKeysAre(nd: Nested)
    ensures SubdirKeys(nd) == SortedKeys(nd.subdirs.Keys)
  {
  }

  /** Adds every entry of a path map, in whatever order the map is walked. */
  method BuildFromMap(m: map<string, Item>) returns (nd: NestedDirectory)
    requires ValidKeys(m)
    ensures nd.Valid() && fresh(nd.Repr) && Represents(nd.tree, m)
  {
    hide Represents, Add;
    nd := new NestedDirectory();
    EmptyRepresents();
    var todo := m.Keys;
    ghost var done: map<string, Item> := map[];
    while todo != {}
      invariant todo <= m.Keys && done.Keys == m.Keys - todo
      invariant forall x :: x in done ==> done[x] == m[x]
      invariant nd.Valid() && fresh(nd.Repr) && Represents(nd.tree, done)
      decreases |todo|
    {
      var x :| x in todo;
      RepresentsAdd(nd.tree, done, x, m[x]);
      nd.AddItem(m[x], x);
      done := done[x := m[x]];
      todo := todo - {x};
    }
    assert done == m;
  }
}
