/** Merging two directory trees: flatten both into one path map, rebuild a
    nested directory from it, digest that. */
module MergeUtil {
  import opened Paths
  import opened CasHash
  import opened NestedTree
  import opened PathMaps
  import opened Messages
  import opened NestedDirectories
  import opened Flatten

  function GenNewPath(dirName: string, nodeName: string): string {
    if dirName == "" then nodeName else dirName + "/" + nodeName
  }

  /** The text of a directory's path; empty for the root. */
  function DirText(pre: seq<string>): string {
    if pre == [] then "" else Join(pre)
  }

  predicate Prefix(pre: seq<string>) {
    pre == [] || NodePath(pre)
  }

  lemma NewPathText(pre: seq<string>, name: string)
    requires Prefix(pre)
    ensures GenNewPath(DirText(pre), name) == Join(pre + [name])
  {
    if pre == [] { assert pre + [name] == [name]; } else { JoinSnoc(pre, name); }
  }

  /** The files of one directory, each compared with what is entered already. */
  method EnterFiles(m: PathMap, nodes: seq<FileNode>, dirName: string, ghost pre: seq<string>)
    returns (r: Option<PathMap>)
    requires Prefix(pre) && dirName == DirText(pre)
    ensures r == Fold(m, FileEntries(nodes, pre))
  {
    var paths := m;
    ghost var entries := FileEntries(nodes, pre);
    for i := 0 to |nodes|
      invariant Fold(m, entries[..i]) == Some(paths)
    {
      var newFile := GenNewPath(dirName, nodes[i].name);
      NewPathText(pre, nodes[i].name);
      FoldNext(m, entries, i, paths);
      if newFile in paths
         && (paths[newFile].DigestKeyOf() != nodes[i].file.digest.Key()
             || paths[newFile].Executable() != nodes[i].file.executable) {
        FoldStuck(m, entries, i + 1);
        return None;
      }
      if newFile !in paths {
        paths := paths[newFile := FileMeta(nodes[i].file)];
      }
    }
    assert entries[..|nodes|] == entries;
    r := Some(paths);
  }

  method EnterSymlinks(m: PathMap, nodes: seq<SymlinkNode>, dirName: string, ghost pre: seq<string>)
    returns (r: Option<PathMap>)
    requires Prefix(pre) && dirName == DirText(pre)
    ensures r == Fold(m, LinkEntries(nodes, pre))
  {
    var paths := m;
    ghost var entries := LinkEntries(nodes, pre);
    for i := 0 to |nodes|
      invariant Fold(m, entries[..i]) == Some(paths)
    {
      var newSymlink := GenNewPath(dirName, nodes[i].name);
      NewPathText(pre, nodes[i].name);
      FoldNext(m, entries, i, paths);
      if newSymlink in paths && paths[newSymlink].LinkMeta? && paths[newSymlink].target != nodes[i].target {
        FoldStuck(m, entries, i + 1);
        return None;
      }
      if newSymlink !in paths {
        paths := paths[newSymlink := LinkMeta(nodes[i].target)];
      }
    }
    assert entries[..|nodes|] == entries;
    r := Some(paths);
  }

  lemma FoldNext(m: PathMap, entries: seq<Entry>, i: nat, now: PathMap)
    requires i < |entries| && Fold(m, entries[..i]) == Some(now)
    ensures Fold(m, entries[..i + 1]) == Emplace(now, entries[i])
  {
    assert entries[..i + 1][..i] == entries[..i];
  }

  /** Once a collision is found the whole list fails. */
  lemma FoldStuck(m: PathMap, entries: seq<Entry>, i: nat)
    requires i <= |entries| && Fold(m, entries[..i]).None?
    ensures Fold(m, entries).None?
  {
    FoldAppend(m, entries[..i], entries[i..]);
    assert entries == entries[..i] + entries[i..];
  }

  /** Every node of the directory and of the directories the store holds below
      it, in the order of the messages. `t` is the tree that following the
      digests unfolds to; it exists because digests of a finite store do not
      loop, and the recursion follows it. */
  method BuildFlattenedPath(m: PathMap, directory: Directory, store: Blobs, dirName: string,
                            ghost t: Tree, ghost pre: seq<string>)
    returns (r: Option<PathMap>)
    requires Unfolds(t, store) && Shaped(t) && Tidy(t) && t.dir == directory
    requires Prefix(pre) && dirName == DirText(pre)
    ensures r == Fold(m, Flat(t, pre))
    decreases t, 1
  {
    hide Fold, FileEntries, LinkEntries, SubEntries, Unfolds, Tidy, Shaped, NodePath, Join;
    ghost var files, links := FileEntries(directory.files, pre), LinkEntries(directory.symlinks, pre);
    FoldAppend(m, files + links, SubEntries(t, pre, |t.kids|));
    FoldAppend(m, files, links);
    r := EnterFiles(m, directory.files, dirName, pre);
    if r.None? { return; }
    r := EnterSymlinks(r.value, directory.symlinks, dirName, pre);
    if r.None? { return; }
    r := EnterSubdirs(r.value, directory.directories, store, dirName, t, pre);
  }

  method EnterSubdirs(m: PathMap, nodes: seq<DirectoryNode>, store: Blobs, dirName: string,
                      ghost t: Tree, ghost pre: seq<string>)
    returns (r: Option<PathMap>)
    requires Unfolds(t, store) && Shaped(t) && Tidy(t) && t.dir.directories == nodes
    requires Prefix(pre) && dirName == DirText(pre)
    ensures r == Fold(m, SubEntries(t, pre, |t.kids|))
    decreases t, 0
  {
    hide Fold, Flat, NodePath, Join;
    var paths := m;
    FoldNone(m);
    for i := 0 to |nodes|
      invariant Fold(m, SubEntries(t, pre, i)) == Some(paths)
    {
      var node := nodes[i];
      var newPath := GenNewPath(dirName, node.name);
      NewPathText(pre, node.name);
      ghost var below := pre + [node.name];
      SubdirName(t, i);
      BelowPrefix(pre, node.name);
      FoldSubdir(m, t, pre, i, paths);
      if newPath !in paths {
        paths := paths[newPath := DirMeta(node.digest)];
      }
      if node.digest in store {
        r := BuildFlattenedPath(paths, store[node.digest], store, newPath, t.kids[i].value, below);
        if r.None? {
          SubEntriesStuck(m, t, pre, i + 1);
          return;
        }
        paths := r.value;
      }
    }
    r := Some(paths);
  }

  lemma FoldNone(m: PathMap)
    ensures Fold(m, []) == Some(m)
  {
  }

  lemma SubdirName(t: Tree, i: nat)
    requires Shaped(t) && Tidy(t) && i < |t.kids|
    ensures t.dir.directories[i].name != "" && NoSlash(t.dir.directories[i].name)
  {
    var pos := |t.dir.files| + |t.dir.symlinks| + i;
    assert NodeNames(t.dir)[pos] == t.dir.directories[i].name;
  }

  lemma BelowPrefix(pre: seq<string>, name: string)
    requires Prefix(pre) && name != "" && NoSlash(name)
    ensures Prefix(pre + [name])
  {
  }

  /** One subdirectory: its own entry never collides, then what is below it. */
  lemma FoldSubdir(m: PathMap, t: Tree, pre: seq<string>, i: nat, now: PathMap)
    requires Shaped(t) && i < |t.kids| && Fold(m, SubEntries(t, pre, i)) == Some(now)
    ensures var node := t.dir.directories[i];
            var key := Join(pre + [node.name]);
            var next := if key in now then now else now[key := DirMeta(node.digest)];
            Fold(m, SubEntries(t, pre, i + 1))
            == if t.kids[i].Some? then Fold(next, Flat(t.kids[i].value, pre + [node.name])) else Some(next)
  {
    hide Flat;
    var node := t.dir.directories[i];
    var own := [Entry(pre + [node.name], DirMeta(node.digest))];
    var below := if t.kids[i].Some? then Flat(t.kids[i].value, pre + [node.name]) else [];
    FoldAppend(m, SubEntries(t, pre, i), SubdirEntries(t, pre, i));
    FoldAppend(now, own, below);
    FoldOne(now, own[0]);
  }

  lemma FoldOne(m: PathMap, e: Entry)
    ensures Fold(m, [e]) == Emplace(m, e)
  {
    assert [e][..0] == [];
  }

  lemma {:induction false} SubEntriesStuck(m: PathMap, t: Tree, pre: seq<string>, i: nat)
    requires Shaped(t) && i <= |t.kids| && Fold(m, SubEntries(t, pre, i)).None?
    ensures Fold(m, SubEntries(t, pre, |t.kids|)).None?
    decreases |t.kids| - i
  {
    hide Fold, SubdirEntries;
    if i < |t.kids| {
      FoldAppend(m, SubEntries(t, pre, i), SubdirEntries(t, pre, i));
      SubEntriesStuck(m, t, pre, i + 1);
    }
  }

  /** Blobs of a list of directories, each under its digest; the first of a digest stays. */
  function DirectoryMap(g: Digester, dirs: seq<Directory>, m: Blobs): Blobs {
    if dirs == [] then m
    else
      var before := DirectoryMap(g, dirs[..|dirs| - 1], m);
      var last := dirs[|dirs| - 1];
      if g(last) in before then before else before[g(last) := last]
  }

  method BuildDigestDirectoryMap(g: Digester, dirs: seq<Directory>, m: Blobs) returns (store: Blobs)
    ensures store == DirectoryMap(g, dirs, m)
  {
    store := m;
    for i := 0 to |dirs|
      invariant store == DirectoryMap(g, dirs[..i], m)
    {
      assert dirs[..i + 1][..i] == dirs[..i];
      var digest := g(dirs[i]);
      if digest !in store {
        store := store[digest := dirs[i]];
      }
    }
    assert dirs[..|dirs|] == dirs;
  }

  /** All directories of both inputs. */
  function MergeStore(g: Digester, input: seq<Directory>, template: seq<Directory>): Blobs {
    DirectoryMap(g, template, DirectoryMap(g, input, map[]))
  }

  /** The path map after both trees are entered; nothing if they collide. */
  function MergedMap(input: Tree, template: Tree): Option<PathMap>
    requires Shaped(input) && Shaped(template)
  {
    Fold(map[], Flat(input, []) + Flat(template, []))
  }

  function Items(m: PathMap): map<string, Item> {
    map x | x in m :: m[x].ToItem()
  }

  /** `Failed` is the source's `false`, `OutOfRange` the exception that `at(0)`
      throws on an empty tree and that the collision handler does not catch. */
  datatype MergeOutcome = Failed | OutOfRange | Merged(root: DigestKey, blobs: Blobs, mergedList: seq<DigestKey>)

  /** A tree that a list of directories, root first, unfolds to. */
  ghost predicate RootTree(t: Tree, dirs: seq<Directory>, store: Blobs) {
    dirs != [] ==> Unfolds(t, store) && Shaped(t) && Tidy(t) && t.dir == dirs[0]
  }

  /** The digests among `keys` that are not in the store, each once. */
  ghost predicate NewDigests(list: seq<DigestKey>, keys: set<DigestKey>, store: Blobs) {
    && (forall k :: k in list <==> k in keys && k !in store)
    && (forall i, j :: 0 <= i < j < |list| ==> list[i] != list[j])
  }

  /** That is: the keys that are not in the store, as many as there are of them. */
  lemma NewDigestsAre(list: seq<DigestKey>, keys: set<DigestKey>, store: Blobs)
    requires NewDigests(list, keys, store)
    ensures (set k | k in list) == keys - store.Keys && |list| == |keys - store.Keys|
  {
    assert (set k | k in list) == keys - store.Keys;
    CountDistinct(list);
  }

  lemma {:induction false} CountDistinct(list: seq<DigestKey>)
    requires forall i, j :: 0 <= i < j < |list| ==> list[i] != list[j]
    ensures |set k | k in list| == |list|
  {
    if list != [] {
      var n := |list| - 1;
      CountDistinct(list[..n]);
      assert (set k | k in list) == (set k | k in list[..n]) + {list[n]};
      assert list[n] !in list[..n];
    }
  }

  method ListNewDigests(keys: set<DigestKey>, store: Blobs) returns (list: seq<DigestKey>)
    ensures NewDigests(list, keys, store)
  {
    list := [];
    var todo := keys;
    while todo != {}
      invariant todo <= keys && NewDigests(list, keys - todo, store)
      decreases |todo|
    {
      var k :| k in todo;
      if k !in store {
        list := list + [k];
      }
      todo := todo - {k};
    }
    assert keys - todo == keys;
  }

  /** The merge fails exactly when the second tree's entries collide with the
      first's; otherwise `nd` is the tree of the merged paths, the root digest
      is its digest, and the blobs are its messages. */
  method CreateMergedDigest(g: Digester, inputTree: seq<Directory>, templateTree: seq<Directory>,
                            newDirectoryBlobs: Blobs, ghost t1: Tree, ghost t2: Tree)
    returns (r: MergeOutcome, ghost nd: Nested)
    requires var store := MergeStore(g, inputTree, templateTree);
             RootTree(t1, inputTree, store) && RootTree(t2, templateTree, store)
    ensures inputTree == [] && templateTree == [] ==> r.Failed?
    ensures (inputTree == []) != (templateTree == []) ==> r.OutOfRange?
    ensures inputTree != [] && templateTree != [] ==>
              var m := MergedMap(t1, t2);
              && (m.None? ==> r.Failed?)
              && (m.Some? ==>
                    && Represents(nd, Items(m.value))
                    && r.Merged? && r.root == ToDigest(g, nd) && r.blobs == StoreBlobs(g, nd, newDirectoryBlobs)
                    && NewDigests(r.mergedList, r.blobs.Keys, MergeStore(g, inputTree, templateTree)))
  {
    hide Flat, Fold, Unfolds, Tidy, Represents, NewDigests, StoreBlobs, ToDigest, Items;
    nd := EMPTY;
    if inputTree == [] && templateTree == [] {
      return Failed, nd;
    }
    var store := BuildDigestDirectoryMap(g, inputTree, map[]);
    store := BuildDigestDirectoryMap(g, templateTree, store);
    if inputTree == [] {
      return OutOfRange, nd;
    }
    var paths := BuildFlattenedPath(map[], inputTree[0], store, "", t1, []);
    FirstTreeEnters(t1);
    if paths.None? {
      return Failed, nd;
    }
    if templateTree == [] {
      return OutOfRange, nd;
    }
    FoldAppend(map[], Flat(t1, []), Flat(t2, []));
    paths := BuildFlattenedPath(paths.value, templateTree[0], store, "", t2, []);
    if paths.None? {
      return Failed, nd;
    }
    MergedKeys(t1, t2);
    var result := BuildFromMap(Items(paths.value));
    nd := result.tree;
    var root, blobs := result.ToDigestStoring(g, newDirectoryBlobs);
    var list := ListNewDigests(blobs.Keys, store);
    r := Merged(root, blobs, list);
  }

  /** A single tidy tree never collides with itself. */
  lemma FirstTreeEnters(t: Tree)
    requires Shaped(t) && Tidy(t)
    ensures Fold(map[], Flat(t, [])).Some?
    ensures Entered(map[], Flat(t, []), Fold(map[], Flat(t, [])).value)
  {
    hide Flat, Fold;
    FlatConsistent(t);
    FoldMeaning(map[], Flat(t, []));
  }

  /** What the merged map holds: all paths of both trees, the first tree's entry where both have one. */
  lemma MergedEntries(t1: Tree, t2: Tree)
    requires Shaped(t1) && Tidy(t1) && Shaped(t2) && Tidy(t2)
    ensures var one := Fold(map[], Flat(t1, [])); var both := MergedMap(t1, t2);
            && one.Some? && Entered(map[], Flat(t1, []), one.value)
            && (both.None? <==> Collides(one.value, Flat(t2, [])))
            && (both.Some? ==> Entered(one.value, Flat(t2, []), both.value))
  {
    hide Flat, Fold, Entered, Collides;
    FirstTreeEnters(t1);
    FlatConsistent(t2);
    FoldAppend(map[], Flat(t1, []), Flat(t2, []));
    FoldMeaning(Fold(map[], Flat(t1, [])).value, Flat(t2, []));
  }

  lemma MergedKeys(t1: Tree, t2: Tree)
    requires Shaped(t1) && Tidy(t1) && Shaped(t2) && Tidy(t2) && MergedMap(t1, t2).Some?
    ensures ValidKeys(Items(MergedMap(t1, t2).value))
  {
    hide Flat, Fold;
    MergedEntries(t1, t2);
    FlatConsistent(t1);
    FlatConsistent(t2);
    var m := MergedMap(t1, t2).value;
    forall x | x in m
      ensures NodePath(Split(x))
    {
      var e :| (e in Flat(t1, []) || e in Flat(t2, [])) && Key(e) == x;
      NodePathText(e.path);
    }
  }
}
