/** Reading a merge result back: what was stored unfolds to the merged tree,
    flattening it gives the union, and a canonical tree merged with itself is
    unchanged. */
module MergeRoundTrip {
  import opened Paths
  import opened CasHash
  import opened StringOrder
  import opened NestedTree
  import opened PathMaps
  import opened Messages
  import opened Flatten
  import opened MergeUtil
  import opened MergeTheorems
  import opened MergedResult

  /** No two of these directories share a digest. */
  ghost predicate Injective(g: Digester, dirs: set<Directory>) {
    forall a, b :: a in dirs && b in dirs && g(a) == g(b) ==> a == b
  }

  /** Each of these directories is stored under its digest. */
  ghost predicate Has(g: Digester, dirs: set<Directory>, s: Blobs) {
    forall d :: d in dirs ==> g(d) in s && s[g(d)] == d
  }

  /** The messages of a nested directory, its own and all those below. */
  ghost function MessagesOf(g: Digester, nd: Nested): set<Directory>
    decreases nd, |nd.subdirs.Keys| + 1
  {
    MessagesBelow(g, nd, SubdirKeys(nd)) + {ToDirectory(g, nd)}
  }

  ghost function MessagesBelow(g: Digester, nd: Nested, keys: seq<string>): set<Directory>
    requires forall i :: 0 <= i < |keys| ==> keys[i] in nd.subdirs
    decreases nd, |keys|
  {
    if keys == [] then {}
    else MessagesBelow(g, nd, keys[..|keys| - 1]) + MessagesOf(g, nd.subdirs[keys[|keys| - 1]])
  }

  /** The directories that the Tree message of a nested directory carries. */
  ghost function TreeMessages(g: Digester, nd: Nested): set<Directory> {
    (set d | d in ToTree(g, nd).children) + {ToTree(g, nd).root}
  }

  lemma {:induction false} MessagesAreTree(g: Digester, nd: Nested)
    ensures MessagesOf(g, nd) == TreeMessages(g, nd)
    decreases nd, |nd.subdirs.Keys| + 1
  {
    hide ToDirectory, SubdirKeys;
    TreeRootAgrees(g, nd);
    BelowAreTree(g, nd, SubdirKeys(nd));
  }

  lemma {:induction false} BelowAreTree(g: Digester, nd: Nested, keys: seq<string>)
    requires forall i :: 0 <= i < |keys| ==> keys[i] in nd.subdirs
    ensures MessagesBelow(g, nd, keys) == set d | d in TreeChildren(g, nd, keys)
    decreases nd, |keys|
  {
    hide MessagesOf, ToTree;
    if keys != [] {
      var n := |keys| - 1;
      BelowAreTree(g, nd, keys[..n]);
      MessagesAreTree(g, nd.subdirs[keys[n]]);
    }
  }

  lemma HasAdd(g: Digester, dirs: set<Directory>, s: Blobs, d: Directory)
    requires Injective(g, dirs + {d}) && Has(g, dirs, s)
    ensures Has(g, dirs + {d}, s[g(d) := d])
  {
  }

  /** Storing a tree stores all its messages, and disturbs none stored before. */
  lemma {:induction false} StoreHas(g: Digester, nd: Nested, m: Blobs, before: set<Directory>)
    requires Injective(g, before + MessagesOf(g, nd)) && Has(g, before, m)
    ensures Has(g, before + MessagesOf(g, nd), StoreBlobs(g, nd, m))
    decreases nd, |nd.subdirs.Keys| + 1
  {
    hide Injective, Has, StoreChildren, MessagesBelow, ToDirectory, SubdirKeys;
    var keys, below := SubdirKeys(nd), MessagesBelow(g, nd, SubdirKeys(nd));
    SubsetInjective(g, before + below, before + MessagesOf(g, nd));
    StoreChildrenHas(g, nd, keys, m, before);
    assert before + MessagesOf(g, nd) == before + below + {ToDirectory(g, nd)};
    HasAdd(g, before + below, StoreChildren(g, nd, keys, m), ToDirectory(g, nd));
  }

  lemma SubsetInjective(g: Digester, some: set<Directory>, all: set<Directory>)
    requires some <= all && Injective(g, all)
    ensures Injective(g, some)
  {
  }

  lemma {:induction false} StoreChildrenHas(g: Digester, nd: Nested, keys: seq<string>, m: Blobs,
                                            before: set<Directory>)
    requires forall i :: 0 <= i < |keys| ==> keys[i] in nd.subdirs
    requires Injective(g, before + MessagesBelow(g, nd, keys)) && Has(g, before, m)
    ensures Has(g, before + MessagesBelow(g, nd, keys), StoreChildren(g, nd, keys, m))
    decreases nd, |keys|
  {
    hide Injective, Has, StoreBlobs, MessagesOf;
    if keys == [] {
      assert before + {} == before;
    } else {
      var n := |keys| - 1;
      var init, child := MessagesBelow(g, nd, keys[..n]), nd.subdirs[keys[n]];
      assert before + MessagesBelow(g, nd, keys) == before + init + MessagesOf(g, child);
      SubsetInjective(g, before + init, before + MessagesBelow(g, nd, keys));
      StoreChildrenHas(g, nd, keys[..n], m, before);
      StoreHas(g, child, StoreChildren(g, nd, keys[..n], m), before + init);
    }
  }

  /** Following digests through a store that has the messages gives the tree back. */
  lemma {:induction false} HasUnfolds(g: Digester, nd: Nested, s: Blobs)
    requires Has(g, MessagesOf(g, nd), s)
    ensures Unfolds(TreeOf(g, nd), s)
    decreases nd
  {
    hide ToDirectory, MessagesOf, KidsOf, MessagesBelow, SubdirKeys;
    MessageNodes(g, nd);
    var keys := SubdirKeys(nd);
    forall i | 0 <= i < |keys|
      ensures var child := nd.subdirs[keys[i]];
              Unfolds(TreeOf(g, child), s) && ToDigest(g, child) in s && s[ToDigest(g, child)] == TreeOf(g, child).dir
    {
      ChildMessages(g, nd, i);
      HasUnfolds(g, nd.subdirs[keys[i]], s);
    }
  }

  lemma ChildMessages(g: Digester, nd: Nested, i: nat)
    requires i < |SubdirKeys(nd)|
    ensures var child := nd.subdirs[SubdirKeys(nd)[i]];
            && MessagesOf(g, child) <= MessagesOf(g, nd)
            && ToDirectory(g, child) in MessagesOf(g, nd)
            && g(ToDirectory(g, child)) == ToDigest(g, child)
            && TreeOf(g, child).dir == ToDirectory(g, child)
  {
    hide ToDirectory, SubdirKeys;
    BelowIncludes(g, nd, SubdirKeys(nd), i);
    TreeOfDir(g, nd.subdirs[SubdirKeys(nd)[i]]);
  }

  lemma {:induction false} BelowIncludes(g: Digester, nd: Nested, keys: seq<string>, i: nat)
    requires forall j :: 0 <= j < |keys| ==> keys[j] in nd.subdirs
    requires i < |keys|
    ensures MessagesOf(g, nd.subdirs[keys[i]]) <= MessagesBelow(g, nd, keys)
    decreases |keys|
  {
    hide MessagesOf;
    if i < |keys| - 1 { BelowIncludes(g, nd, keys[..|keys| - 1], i); }
  }

  /** A store that unfolds to the tree has every message below the root. */
  lemma {:induction false} UnfoldsHas(g: Digester, nd: Nested, s: Blobs)
    requires Unfolds(TreeOf(g, nd), s)
    ensures Has(g, MessagesBelow(g, nd, SubdirKeys(nd)), s)
    decreases nd, |nd.subdirs.Keys| + 1
  {
    hide ToDirectory, KidsOf, SubdirKeys, MessagesBelow, Has;
    MessageNodes(g, nd);
    UnfoldsHasBelow(g, nd, SubdirKeys(nd), s);
  }

  lemma {:induction false} UnfoldsHasBelow(g: Digester, nd: Nested, keys: seq<string>, s: Blobs)
    requires forall i :: 0 <= i < |keys| ==> keys[i] in nd.subdirs
    requires forall i :: 0 <= i < |keys| ==>
               var child := nd.subdirs[keys[i]];
               Unfolds(TreeOf(g, child), s) && ToDigest(g, child) in s && s[ToDigest(g, child)] == TreeOf(g, child).dir
    ensures Has(g, MessagesBelow(g, nd, keys), s)
    decreases nd, |keys|
  {
    hide ToDirectory, Unfolds, TreeOf, MessagesOf, Has;
    if keys != [] {
      var n := |keys| - 1;
      var child := nd.subdirs[keys[n]];
      UnfoldsHasBelow(g, nd, keys[..n], s);
      UnfoldsHas(g, child, s);
      TreeOfDir(g, child);
      HasOwn(g, child, s);
      HasBoth(g, MessagesBelow(g, nd, keys[..n]), MessagesOf(g, child), s);
    } else {
      HasNone(g, s);
    }
  }

  lemma HasOwn(g: Digester, nd: Nested, s: Blobs)
    requires Has(g, MessagesBelow(g, nd, SubdirKeys(nd)), s)
    requires ToDigest(g, nd) in s && s[ToDigest(g, nd)] == ToDirectory(g, nd)
    ensures Has(g, MessagesOf(g, nd), s)
  {
    hide ToDirectory, SubdirKeys, MessagesBelow;
    OwnMessage(g, nd);
  }

  lemma HasNone(g: Digester, s: Blobs)
    ensures Has(g, {}, s)
  {
  }

  lemma HasBoth(g: Digester, a: set<Directory>, b: set<Directory>, s: Blobs)
    requires Has(g, a, s) && Has(g, b, s)
    ensures Has(g, a + b, s)
  {
  }

  /** Whatever the map held before: what a tree stored unfolds to that tree if
      and only if no two directories of its Tree message share a digest. */
  lemma StoredUnfolds(g: Digester, nd: Nested, m: Blobs)
    ensures Unfolds(TreeOf(g, nd), StoreBlobs(g, nd, m)) <==> Injective(g, TreeMessages(g, nd))
  {
    hide Injective, TreeMessages, TreeOf, Unfolds, StoreBlobs, ToDirectory, MessagesBelow, SubdirKeys;
    MessagesAreTree(g, nd);
    var s := StoreBlobs(g, nd, m);
    if Injective(g, TreeMessages(g, nd)) {
      assert {} + MessagesOf(g, nd) == MessagesOf(g, nd);
      StoreHas(g, nd, m, {});
      HasUnfolds(g, nd, s);
    } else if Unfolds(TreeOf(g, nd), s) {
      UnfoldsHas(g, nd, s);
      RootStored(g, nd, m);
      HasInjective(g, MessagesBelow(g, nd, SubdirKeys(nd)) + {ToDirectory(g, nd)}, s);
    }
  }

  /** A digester whose keys hold a size alone, like the keys of BLAKE3ZCC
      digests; the size here is the number of nodes. */
  function BySize(d: Directory): DigestKey {
    DigestKey("", |d.files| + |d.symlinks| + |d.directories|)
  }

  /** Two subdirectories of one size: one message replaces the other in the
      store, and the stored tree does not unfold to the tree. */
  lemma StoredTreeUnreadable(file: File, m: Blobs)
    ensures var one, two := Nested(map["x" := file], map[], map[]), Nested(map["y" := file], map[], map[]);
            var nd := Nested(map[], map[], map["a" := one, "b" := two]);
            !Unfolds(TreeOf(BySize, nd), StoreBlobs(BySize, nd, m))
  {
    hide TreeOf, Unfolds, StoreBlobs, ToDirectory, SubdirKeys, MessagesOf, TreeMessages, SortedKeys;
    var one, two := Nested(map["x" := file], map[], map[]), Nested(map["y" := file], map[], map[]);
    var nd := Nested(map[], map[], map["a" := one, "b" := two]);
    SubdirMessage(BySize, nd, "a");
    SubdirMessage(BySize, nd, "b");
    assert ToDirectory(BySize, one) != ToDirectory(BySize, two) by {
      assert "x" in one.files && "x" !in two.files;
      if ToDirectory(BySize, one) == ToDirectory(BySize, two) { SameMessage(BySize, one, two); }
    }
    OneFileSize(file, "x");
    OneFileSize(file, "y");
    MessagesAreTree(BySize, nd);
    StoredUnfolds(BySize, nd, m);
  }

  lemma SubdirMessage(g: Digester, nd: Nested, x: string)
    requires x in nd.subdirs
    ensures ToDirectory(g, nd.subdirs[x]) in MessagesOf(g, nd)
  {
    hide ToDirectory, SubdirKeys, MessagesOf;
    KeyHasNode(g, nd, x);
    var i :| 0 <= i < |SubdirKeys(nd)| && SubdirKeys(nd)[i] == x;
    ChildMessages(g, nd, i);
  }

  lemma OneFileSize(file: File, name: string)
    ensures BySize(ToDirectory(BySize, Nested(map[name := file], map[], map[]))) == DigestKey("", 1)
  {
    hide SortedKeys;
    var nd := Nested(map[name := file], map[], map[]);
    FileNodesAre(nd.files);
    LinkNodesAre(nd.symlinks);
    assert nd.files.Keys == {name};
    NoSubdirKeys(nd);
  }

  lemma NoSubdirKeys(nd: Nested)
    requires nd.subdirs == map[]
    ensures SubdirKeys(nd) == []
  {
  }

  /** The root is stored last. */
  lemma RootStored(g: Digester, nd: Nested, m: Blobs)
    ensures ToDigest(g, nd) in StoreBlobs(g, nd, m) && StoreBlobs(g, nd, m)[ToDigest(g, nd)] == ToDirectory(g, nd)
    ensures ToDigest(g, nd) == g(ToDirectory(g, nd))
  {
    hide ToDirectory, StoreChildren;
  }

  lemma HasInjective(g: Digester, dirs: set<Directory>, s: Blobs)
    requires Has(g, dirs, s)
    ensures Injective(g, dirs)
  {
  }

  /** Without digest collisions a digest determines the tree it was computed from. */
  lemma {:induction false} DigestDetermines(g: Digester, a: Nested, b: Nested)
    requires ToDigest(g, a) == ToDigest(g, b) && Injective(g, MessagesOf(g, a) + MessagesOf(g, b))
    ensures a == b
    decreases a
  {
    hide ToDirectory, SubdirKeys, SortedKeys, MessagesOf, TreeOf;
    OwnMessage(g, a);
    OwnMessage(g, b);
    assert ToDirectory(g, a) == ToDirectory(g, b);
    SameMessage(g, a, b);
    MessageNodes(g, a);
    MessageNodes(g, b);
    forall i | 0 <= i < |SubdirKeys(a)|
      ensures SubdirKeys(a)[i] == SubdirKeys(b)[i] && a.subdirs[SubdirKeys(a)[i]] == b.subdirs[SubdirKeys(a)[i]]
    {
      var x := SubdirKeys(a)[i];
      assert ToDirectory(g, a).directories[i] == ToDirectory(g, b).directories[i];
      ChildMessages(g, a, i);
      ChildMessages(g, b, i);
      var ca, cb := a.subdirs[x], b.subdirs[x];
      SubsetInjective(g, MessagesOf(g, ca) + MessagesOf(g, cb), MessagesOf(g, a) + MessagesOf(g, b));
      DigestDetermines(g, ca, cb);
    }
    assert SubdirKeys(a) == SubdirKeys(b);
    SameSubdirs(a, b);
  }

  /** A message determines the files and symlinks. */
  lemma SameMessage(g: Digester, a: Nested, b: Nested)
    requires ToDirectory(g, a) == ToDirectory(g, b)
    ensures a.files == b.files && a.symlinks == b.symlinks
  {
    hide ToDirectory;
    MessageIncludes(g, a, b);
    MessageIncludes(g, b, a);
  }

  lemma MessageIncludes(g: Digester, a: Nested, b: Nested)
    requires ToDirectory(g, a) == ToDirectory(g, b)
    ensures forall x :: x in a.files ==> x in b.files && a.files[x] == b.files[x]
    ensures forall x :: x in a.symlinks ==> x in b.symlinks && a.symlinks[x] == b.symlinks[x]
  {
    hide ToDirectory, SubdirKeys, TreeOf;
    MessageNodes(g, a);
    MessageNodes(g, b);
    forall x | x in a.files
      ensures x in b.files && a.files[x] == b.files[x]
    {
      KeyHasNode(g, a, x);
    }
    forall x | x in a.symlinks
      ensures x in b.symlinks && a.symlinks[x] == b.symlinks[x]
    {
      KeyHasNode(g, a, x);
    }
  }

  lemma OwnMessage(g: Digester, nd: Nested)
    ensures ToDirectory(g, nd) in MessagesOf(g, nd) && g(ToDirectory(g, nd)) == ToDigest(g, nd)
  {
    hide ToDirectory;
  }

  lemma SameSubdirs(a: Nested, b: Nested)
    requires SubdirKeys(a) == SubdirKeys(b)
    requires forall i :: 0 <= i < |SubdirKeys(a)| ==> a.subdirs[SubdirKeys(a)[i]] == b.subdirs[SubdirKeys(a)[i]]
    ensures a.subdirs == b.subdirs
  {
    hide SortedKeys;
    assert forall x :: x in a.subdirs <==> x in SubdirKeys(a);
    assert forall x :: x in b.subdirs <==> x in SubdirKeys(b);
  }

  /** Names and kinds seen through lookups: only proper paths are answered, and
      each by one kind of entry. */
  ghost predicate TidyLookups(nd: Nested) {
    forall q ::
      && (FileAt(nd, q).Some? || LinkAt(nd, q).Some? || HasDir(nd, q) ==> NodePath(q))
      && !(FileAt(nd, q).Some? && LinkAt(nd, q).Some?)
      && !(FileAt(nd, q).Some? && HasDir(nd, q))
      && !(LinkAt(nd, q).Some? && HasDir(nd, q))
  }

  lemma {:induction false} TidyFromLookups(nd: Nested)
    requires TidyLookups(nd)
    ensures TidyNested(nd)
    decreases nd
  {
    forall x
      ensures x in nd.files || x in nd.symlinks || x in nd.subdirs ==> GoodName(x)
      ensures !(x in nd.files && x in nd.symlinks) && !(x in nd.files && x in nd.subdirs)
      ensures !(x in nd.symlinks && x in nd.subdirs)
    {
      var q := [x];
      assert FileAt(nd, q).Some? <==> x in nd.files;
      assert LinkAt(nd, q).Some? <==> x in nd.symlinks;
      assert HasDir(nd, q) <==> x in nd.subdirs;
      assert NodePath(q) ==> q[0] != "" && NoSlash(q[0]);
    }
    forall x | x in nd.subdirs
      ensures TidyNested(nd.subdirs[x])
    {
      ChildTidyLookups(nd, x);
      TidyFromLookups(nd.subdirs[x]);
    }
  }

  lemma ChildTidyLookups(nd: Nested, x: string)
    requires TidyLookups(nd) && x in nd.subdirs
    ensures TidyLookups(nd.subdirs[x])
  {
    forall q
      ensures var c := nd.subdirs[x];
              && (FileAt(c, q).Some? || LinkAt(c, q).Some? || HasDir(c, q) ==> NodePath(q))
              && !(FileAt(c, q).Some? && LinkAt(c, q).Some?)
              && !(FileAt(c, q).Some? && HasDir(c, q))
              && !(LinkAt(c, q).Some? && HasDir(c, q))
    {
      if q != [] {
        var r := [x] + q;
        assert r[0] == x && r[1..] == q && |r| > 1;
        assert FileAt(nd, r) == FileAt(nd.subdirs[x], q);
        assert LinkAt(nd, r) == LinkAt(nd.subdirs[x], q);
        assert HasDir(nd, r) == HasDir(nd.subdirs[x], q);
        assert NodePath(r) ==> NodePath(q) by {
          if NodePath(r) { assert forall i :: 0 <= i < |q| ==> q[i] == r[i + 1]; }
        }
      }
    }
  }

  /** In two trees that do not collide a merged path has one item. */
  lemma OneItem(t1: Tree, t2: Tree, q: seq<string>, a: Item, b: Item)
    requires TidyTree(t1) && TidyTree(t2) && MergedMap(t1, t2).Some?
    requires InMerged(t1, t2, q, a) && InMerged(t1, t2, q, b)
    ensures a == b && NodePath(q)
  {
    hide Flat, Fold, Tidy, KindConsistent, Lists, InMerged, AtPath, Items;
    MergeIsUnion(t1, t2, q, a);
    MergeIsUnion(t1, t2, q, b);
    AtNodePath(Items(MergedMap(t1, t2).value), q);
  }

  lemma AtNodePath(m: map<string, Item>, q: seq<string>)
    ensures AtPath(m, q).Some? ==> NodePath(q)
  {
  }

  lemma MergeResultTidy(t1: Tree, t2: Tree, nd: Nested)
    requires TidyTree(t1) && TidyTree(t2) && KindConsistent(t1, t2) && MergedMap(t1, t2).Some?
    requires Represents(nd, Items(MergedMap(t1, t2).value))
    ensures TidyNested(nd)
  {
    hide TidyTree, KindConsistent, Represents, InMerged, FileAt, LinkAt, HasDir, NodePath, MergedMap, Items;
    forall q
      ensures FileAt(nd, q).Some? || LinkAt(nd, q).Some? || HasDir(nd, q) ==> NodePath(q)
      ensures !(FileAt(nd, q).Some? && LinkAt(nd, q).Some?)
      ensures !(FileAt(nd, q).Some? && HasDir(nd, q))
      ensures !(LinkAt(nd, q).Some? && HasDir(nd, q))
    {
      MergedLookups(t1, t2, nd, q);
      MergedDirectories(t1, t2, nd, q);
      forall a, b | InMerged(t1, t2, q, a) && InMerged(t1, t2, q, b)
        ensures a == b && NodePath(q)
      {
        OneItem(t1, t2, q, a, b);
      }
    }
    TidyFromLookups(nd);
  }

  /** The tree has this item at this path. */
  ghost predicate HasItem(t: Tree, q: seq<string>, item: Item)
    requires Shaped(t)
  {
    exists e :: e in Flat(t, []) && e.path == q && e.meta.ToItem() == item
  }

  lemma HasItemIsLookup(g: Digester, nd: Nested, q: seq<string>)
    ensures Shaped(TreeOf(g, nd))
    ensures forall file :: HasItem(TreeOf(g, nd), q, FileItem(file)) <==> FileAt(nd, q) == Some(file)
    ensures forall target :: HasItem(TreeOf(g, nd), q, LinkItem(target)) <==> LinkAt(nd, q) == Some(target)
    ensures HasItem(TreeOf(g, nd), q, DirItem) <==> HasDir(nd, q)
  {
    hide Flat, Shaped, ToDirectory, ToDigest, TreeOf;
    TreeOfShaped(g, nd);
    var t := TreeOf(g, nd);
    if q != [] {
      forall meta
        ensures Entry(q, meta) in Flat(t, []) <==> Found(g, nd, q, meta)
      {
        FlatIsLookup(g, nd, [], q, meta);
        assert [] + q == q;
      }
      SubAtIsDir(nd, q);
      ItemsAreFound(g, nd, q, t);
    } else {
      forall e | e in Flat(t, [])
        ensures e.path != []
      {
        LongerBelow(t, [], e);
      }
    }
  }

  lemma ItemsAreFound(g: Digester, nd: Nested, q: seq<string>, t: Tree)
    requires Shaped(t) && forall meta :: Entry(q, meta) in Flat(t, []) <==> Found(g, nd, q, meta)
    requires SubAt(nd, q).Some? <==> HasDir(nd, q)
    ensures forall file :: HasItem(t, q, FileItem(file)) <==> FileAt(nd, q) == Some(file)
    ensures forall target :: HasItem(t, q, LinkItem(target)) <==> LinkAt(nd, q) == Some(target)
    ensures HasItem(t, q, DirItem) <==> HasDir(nd, q)
  {
    hide Shaped, Flat, FileAt, LinkAt, HasDir, SubAt, ToDigest;
    forall e | e in Flat(t, []) && e.path == q
      ensures Found(g, nd, q, e.meta)
    {
      assert e == Entry(q, e.meta);
    }
    forall file
      ensures HasItem(t, q, FileItem(file)) <==> FileAt(nd, q) == Some(file)
    {
      if FileAt(nd, q) == Some(file) { HasListed(t, Entry(q, FileMeta(file))); }
    }
    forall target
      ensures HasItem(t, q, LinkItem(target)) <==> LinkAt(nd, q) == Some(target)
    {
      if LinkAt(nd, q) == Some(target) { HasListed(t, Entry(q, LinkMeta(target))); }
    }
    if HasDir(nd, q) { HasListed(t, Entry(q, DirMeta(ToDigest(g, SubAt(nd, q).value)))); }
  }

  lemma HasListed(t: Tree, e: Entry)
    requires Shaped(t)
    ensures e in Flat(t, []) ==> HasItem(t, e.path, e.meta.ToItem())
  {
  }

  /** Flattening the stored merge result gives the union of the two trees, each
      path with the first tree's item if that has one, and a directory above
      every path. Where they agree on kinds that is again a tidy tree. It can be
      read back from the store exactly when no two of its directories share a
      digest. */
  lemma MergeResultFlattens(g: Digester, t1: Tree, t2: Tree, nd: Nested, before: Blobs, q: seq<string>, item: Item)
    requires TidyTree(t1) && TidyTree(t2) && MergedMap(t1, t2).Some?
    requires Represents(nd, Items(MergedMap(t1, t2).value))
    ensures var t := TreeOf(g, nd);
            && Shaped(t) && t.dir == ToDirectory(g, nd)
            && (Unfolds(t, StoreBlobs(g, nd, before)) <==> Injective(g, TreeMessages(g, nd)))
            && (HasItem(t, q, item) <==> InMerged(t1, t2, q, item) || (item.DirItem? && HasBelow(t1, t2, q)))
            && (KindConsistent(t1, t2) ==>
                  TidyTree(t) && (HasItem(t, q, item) <==> InMerged(t1, t2, q, item)))
  {
    hide TidyTree, KindConsistent, Represents, InMerged, HasBelow, HasItem, FileAt, LinkAt, HasDir, MergedMap, Items,
         TreeOf, TidyNested, Unfolds, StoreBlobs, Injective, TreeMessages, ToDirectory, Shaped;
    StoredUnfolds(g, nd, before);
    TreeOfDir(g, nd);
    HasItemIsLookup(g, nd, q);
    MergedLookups(t1, t2, nd, q);
    if KindConsistent(t1, t2) {
      MergeResultTidy(t1, t2, nd);
      WrittenIsTidy(g, nd);
      MergedDirectories(t1, t2, nd, q);
    }
  }

  lemma WrittenIsTidy(g: Digester, nd: Nested)
    requires TidyNested(nd)
    ensures TidyTree(TreeOf(g, nd))
  {
    hide Tidy, Shaped, TidyNested, TreeOf;
    TreeOfShaped(g, nd);
    TreeOfTidy(g, nd);
  }

  /** No file or symlink of the map has a path of the map below it. */
  ghost predicate ConsistentPaths(m: map<string, Item>) {
    forall q :: ImpliedDir(m, q) && AtPath(m, q).Some? ==> AtPath(m, q) == Some(DirItem)
  }

  lemma BuiltTidy(nd: Nested, m: map<string, Item>)
    requires Represents(nd, m) && ConsistentPaths(m)
    ensures TidyNested(nd)
  {
    hide FileAt, LinkAt, HasDir, AtPath, ImpliedDir, NodePath;
    forall q
      ensures FileAt(nd, q).Some? || LinkAt(nd, q).Some? || HasDir(nd, q) ==> NodePath(q)
    {
      AtNodePath(m, q);
      ImpliedNodePath(m, q);
    }
    TidyFromLookups(nd);
  }

  lemma ImpliedNodePath(m: map<string, Item>, q: seq<string>)
    ensures ImpliedDir(m, q) ==> NodePath(q)
  {
    if ImpliedDir(m, q) && AtPath(m, q) != Some(DirItem) {
      var p :| AtPath(m, p).Some? && Above(q, p);
      assert forall i :: 0 <= i < |q| ==> q[i] == p[i];
    }
  }

  /** Flattening what was built from a path map and stored gives back the map's
      entries and their ancestor directories, nothing else, in a tidy tree if the
      paths are consistent; it can be read back from the store exactly when no
      two of its directories share a digest. */
  lemma BuiltFlattens(g: Digester, nd: Nested, m: map<string, Item>, before: Blobs, q: seq<string>, item: Item)
    requires Represents(nd, m)
    ensures var t := TreeOf(g, nd);
            && Shaped(t) && t.dir == ToDirectory(g, nd) && (ConsistentPaths(m) ==> TidyTree(t))
            && (Unfolds(t, StoreBlobs(g, nd, before)) <==> Injective(g, TreeMessages(g, nd)))
            && (HasItem(t, q, item) <==> if item.DirItem? then ImpliedDir(m, q) else AtPath(m, q) == Some(item))
  {
    hide TidyTree, HasItem, FileAt, LinkAt, HasDir, AtPath, ImpliedDir, TreeOf, TidyNested, Unfolds, StoreBlobs,
         Injective, TreeMessages, ToDirectory, ConsistentPaths, Shaped;
    StoredUnfolds(g, nd, before);
    TreeOfDir(g, nd);
    HasItemIsLookup(g, nd, q);
    if ConsistentPaths(m) {
      BuiltTidy(nd, m);
      WrittenIsTidy(g, nd);
    }
  }

  /** A tidy tree agrees with itself and does not collide with itself. */
  lemma SelfMergeSucceeds(t: Tree)
    requires TidyTree(t)
    ensures KindConsistent(t, t) && MergedMap(t, t).Some?
    ensures forall q, item :: InMerged(t, t, q, item) <==> HasItem(t, q, item)
  {
    hide Flat, Fold, Clash, Tidy, Shaped;
    forall a, b | Lists(t, a) && Lists(t, b) && a.path == b.path
      ensures a.meta == b.meta
    {
      OneNodePerPath(t, [], a, b);
    }
    assert forall a: Meta :: a.Alike(a);
    FailsOnDifference(t, t);
  }

  /** Merging a written directory with itself represents the same directory. */
  lemma SelfMergeRepresents(g: Digester, nd: Nested)
    requires TidyNested(nd)
    ensures var t := TreeOf(g, nd);
            TidyTree(t) && MergedMap(t, t).Some? && Represents(nd, Items(MergedMap(t, t).value))
  {
    hide Tidy, Shaped, KindConsistent, InMerged, HasItem, FileAt, LinkAt, HasDir, MergedMap, Items, AtPath,
         TreeOf, TidyNested, ImpliedDir;
    var t := TreeOf(g, nd);
    WrittenIsTidy(g, nd);
    SelfMergeSucceeds(t);
    var m := Items(MergedMap(t, t).value);
    forall q
      ensures FileAt(nd, q) == (match AtPath(m, q) case Some(FileItem(file)) => Some(file) case _ => None)
      ensures LinkAt(nd, q) == (match AtPath(m, q) case Some(LinkItem(target)) => Some(target) case _ => None)
      ensures HasDir(nd, q) <==> ImpliedDir(m, q)
    {
      HasItemIsLookup(g, nd, q);
      forall item
        ensures AtPath(m, q) == Some(item) <==> HasItem(t, q, item)
      {
        MergeIsUnion(t, t, q, item);
      }
      DirsAreImplied(t, q);
    }
  }

  lemma DirsAreImplied(t: Tree, q: seq<string>)
    requires TidyTree(t) && KindConsistent(t, t) && MergedMap(t, t).Some?
    ensures var m := Items(MergedMap(t, t).value); ImpliedDir(m, q) <==> AtPath(m, q) == Some(DirItem)
  {
    hide Tidy, Shaped, KindConsistent, InMerged, MergedMap, Items, AtPath, Above;
    var m := Items(MergedMap(t, t).value);
    if ImpliedDir(m, q) && AtPath(m, q) != Some(DirItem) {
      var p :| AtPath(m, p).Some? && Above(q, p);
      MergeIsUnion(t, t, p, AtPath(m, p).value);
      AncestorInMerged(t, t, p, AtPath(m, p).value, q);
      MergeIsUnion(t, t, q, DirItem);
    }
  }

  /** The first directory of the list with this digest. */
  function FirstWith(g: Digester, dirs: seq<Directory>, k: DigestKey): Option<Directory> {
    if dirs == [] then None
    else
      var n := |dirs| - 1;
      var before := FirstWith(g, dirs[..n], k);
      if before.Some? then before else if g(dirs[n]) == k then Some(dirs[n]) else None
  }

  /** A digest that both lists have names the same directory in each. */
  ghost predicate SharedAgree(g: Digester, one: seq<Directory>, other: seq<Directory>) {
    forall k :: FirstWith(g, one, k).Some? && FirstWith(g, other, k).Some? ==>
                  FirstWith(g, one, k) == FirstWith(g, other, k)
  }

  /** What a list adds to a map: the first directory of each digest that is not there yet. */
  lemma {:induction false} DirectoryMapIs(g: Digester, dirs: seq<Directory>, m: Blobs)
    ensures var s := DirectoryMap(g, dirs, m);
            forall k ::
              && (k in s <==> k in m || FirstWith(g, dirs, k).Some?)
              && (k in m ==> s[k] == m[k])
              && (k !in m && k in s ==> FirstWith(g, dirs, k) == Some(s[k]))
    decreases |dirs|
  {
    if dirs != [] { DirectoryMapIs(g, dirs[..|dirs| - 1], m); }
  }

  lemma StoreIs(g: Digester, one: seq<Directory>, other: seq<Directory>)
    ensures var s := MergeStore(g, one, other);
            forall k ::
              && (k in s <==> FirstWith(g, one, k).Some? || FirstWith(g, other, k).Some?)
              && (k in s ==>
                    Some(s[k]) == if FirstWith(g, one, k).Some? then FirstWith(g, one, k) else FirstWith(g, other, k))
  {
    hide FirstWith, DirectoryMap;
    DirectoryMapIs(g, one, map[]);
    DirectoryMapIs(g, other, DirectoryMap(g, one, map[]));
  }

  /** The order of the two lists does not matter to the store exactly when no
      digest stands for one directory in the one and for another in the other. */
  lemma StoresAgree(g: Digester, one: seq<Directory>, other: seq<Directory>)
    ensures MergeStore(g, one, other) == MergeStore(g, other, one) <==> SharedAgree(g, one, other)
  {
    hide FirstWith, MergeStore;
    StoreIs(g, one, other);
    StoreIs(g, other, one);
    var a, b := MergeStore(g, one, other), MergeStore(g, other, one);
    assert a.Keys == b.Keys;
    if SharedAgree(g, one, other) {
      assert forall k :: k in a ==> Some(a[k]) == Some(b[k]);
    }
    if a == b {
      forall k | FirstWith(g, one, k).Some? && FirstWith(g, other, k).Some?
        ensures FirstWith(g, one, k) == FirstWith(g, other, k)
      {
        assert k in a && Some(a[k]) == Some(b[k]);
      }
    }
  }

  lemma {:induction false} FirstWithIn(g: Digester, dirs: seq<Directory>, k: DigestKey)
    ensures FirstWith(g, dirs, k).Some? ==> FirstWith(g, dirs, k).value in dirs && g(FirstWith(g, dirs, k).value) == k
    decreases |dirs|
  {
    if dirs != [] { FirstWithIn(g, dirs[..|dirs| - 1], k); }
  }

  /** Without digest collisions among the inputs every shared digest agrees. */
  lemma InjectiveAgrees(g: Digester, one: seq<Directory>, other: seq<Directory>)
    requires Injective(g, (set d | d in one) + (set d | d in other))
    ensures SharedAgree(g, one, other)
  {
    hide FirstWith;
    forall k
      ensures FirstWith(g, one, k).Some? && FirstWith(g, other, k).Some? ==>
                FirstWith(g, one, k) == FirstWith(g, other, k)
    {
      FirstWithIn(g, one, k);
      FirstWithIn(g, other, k);
    }
  }

  /** Over the same keys a tree represents one map of items. */
  lemma RepresentedItems(nd: Nested, a: map<string, Item>, b: map<string, Item>)
    requires Represents(nd, a) && Represents(nd, b) && a.Keys == b.Keys && ValidKeys(a)
    ensures a == b
  {
    hide FileAt, LinkAt, HasDir, ImpliedDir, NodePath;
    forall x | x in a
      ensures a[x] == b[x]
    {
      var q := Split(x);
      JoinSplit(x);
      assert AtPath(a, q) == Some(a[x]) && AtPath(b, q) == Some(b[x]);
    }
  }

  lemma SameKeysBothWays(t1: Tree, t2: Tree)
    requires TidyTree(t1) && TidyTree(t2) && MergedMap(t1, t2).Some? && MergedMap(t2, t1).Some?
    ensures Items(MergedMap(t1, t2).value).Keys == Items(MergedMap(t2, t1).value).Keys
  {
    hide Flat, Fold, Tidy, Shaped, Collides;
    MergedEntries(t1, t2);
    MergedEntries(t2, t1);
    var m, n := MergedMap(t1, t2).value, MergedMap(t2, t1).value;
    assert forall x :: x in m <==> x in n;
  }

  /** Merging any two trees in either order. The lists unfold to `t1` and `t2`
      when `one` is stored first and to `u1` and `u2` when `other` is: the same
      trees unless the lists share a digest for different directories. Each order
      fails exactly on its own collisions. Over the same trees, where they differ
      at no shared path, openly or hidden, both orders succeed with the same root
      digest and the same blobs, whatever blobs there were before; and if digests
      of the results do not collide the root digests agree only then. */
  method MergeBothWays(g: Digester, one: seq<Directory>, other: seq<Directory>, before: Blobs, ghost t1: Tree,
                       ghost t2: Tree, ghost u1: Tree, ghost u2: Tree)
    returns (r: MergeOutcome, s: MergeOutcome, ghost nd1: Nested, ghost nd2: Nested)
    requires one != [] && other != []
    requires RootTree(t1, one, MergeStore(g, one, other)) && RootTree(t2, other, MergeStore(g, one, other))
    requires RootTree(u1, one, MergeStore(g, other, one)) && RootTree(u2, other, MergeStore(g, other, one))
    ensures !r.OutOfRange? && !s.OutOfRange?
    ensures (r.Failed? <==> ClashingPath(t1, t2)) && (s.Failed? <==> ClashingPath(u2, u1))
    ensures SharedAgree(g, one, other) ==> t1 == u1 && t2 == u2
    ensures t1 == u1 && t2 == u2 && !DifferingPath(t1, t2) && !HiddenDifference(t1, t2) ==>
              r.Merged? && s.Merged? && r.root == s.root && r.blobs == s.blobs
    ensures t1 == u1 && t2 == u2 && r.Merged? && s.Merged? && Injective(g, MessagesOf(g, nd1) + MessagesOf(g, nd2)) ==>
              (r.root == s.root <==> !DifferingPath(t1, t2) && !HiddenDifference(t1, t2))
  {
    hide Flat, Fold, Unfolds, Represents, StoreBlobs, ToDigest, Items, NewDigests, MergeStore, Injective, MessagesOf,
         Lists, SharedAgree;
    StoresAgree(g, one, other);
    if SharedAgree(g, one, other) {
      UnfoldingUnique(t1, u1, MergeStore(g, one, other));
      UnfoldingUnique(t2, u2, MergeStore(g, one, other));
    }
    FailsOnClash(t1, t2);
    FailsOnClash(u2, u1);
    r, nd1 := CreateMergedDigest(g, one, other, before, t1, t2);
    s, nd2 := CreateMergedDigest(g, other, one, before, u2, u1);
    if t1 == u1 && t2 == u2 {
      BothMergeIffNoDifference(t1, t2);
      if r.Merged? && s.Merged? { SameDigestSameItems(g, t1, t2, nd1, nd2); }
    }
  }

  lemma SameDigestSameItems(g: Digester, t1: Tree, t2: Tree, nd1: Nested, nd2: Nested)
    requires TidyTree(t1) && TidyTree(t2) && MergedMap(t1, t2).Some? && MergedMap(t2, t1).Some?
    requires Represents(nd1, Items(MergedMap(t1, t2).value)) && Represents(nd2, Items(MergedMap(t2, t1).value))
    ensures Items(MergedMap(t1, t2).value) == Items(MergedMap(t2, t1).value) <==> nd1 == nd2
    ensures Injective(g, MessagesOf(g, nd1) + MessagesOf(g, nd2)) && ToDigest(g, nd1) == ToDigest(g, nd2) ==> nd1 == nd2
  {
    hide Flat, Fold, Tidy, Shaped, Represents, Items, Injective, MessagesOf, ToDigest, ValidKeys, MergedMap;
    var a, b := Items(MergedMap(t1, t2).value), Items(MergedMap(t2, t1).value);
    if a == b { RepresentsUnique(nd1, nd2, a); }
    if nd1 == nd2 {
      SameKeysBothWays(t1, t2);
      MergedKeys(t1, t2);
      RepresentedItems(nd1, a, b);
    }
    if Injective(g, MessagesOf(g, nd1) + MessagesOf(g, nd2)) && ToDigest(g, nd1) == ToDigest(g, nd2) {
      DigestDetermines(g, nd1, nd2);
    }
  }

  /** Canonical form, as the protocol asks of a Directory: nodes sorted by name,
      and every subdirectory present under its own digest. */
  ghost predicate Canonical(g: Digester, t: Tree)
    decreases t
  {
    && TidyTree(t)
    && Sorted(FileNames(t.dir)) && Sorted(LinkNames(t.dir)) && Sorted(DirNames(t.dir))
    && forall i :: 0 <= i < |t.kids| ==>
         t.kids[i].Some? && t.dir.directories[i].digest == g(t.kids[i].value.dir) && Canonical(g, t.kids[i].value)
  }

  function FileNames(d: Directory): seq<string> {
    seq(|d.files|, i requires 0 <= i < |d.files| => d.files[i].name)
  }

  function LinkNames(d: Directory): seq<string> {
    seq(|d.symlinks|, i requires 0 <= i < |d.symlinks| => d.symlinks[i].name)
  }

  function DirNames(d: Directory): seq<string> {
    seq(|d.directories|, i requires 0 <= i < |d.directories| => d.directories[i].name)
  }

  ghost function FilesOf(d: Directory): (m: map<string, File>)
    ensures forall x :: x in m <==> x in FileNames(d)
  {
    map x | x in FileNames(d) :: d.files[IndexOf(FileNames(d), x)].file
  }

  ghost function LinksOf(d: Directory): (m: map<string, string>)
    ensures forall x :: x in m <==> x in LinkNames(d)
  {
    map x | x in LinkNames(d) :: d.symlinks[IndexOf(LinkNames(d), x)].target
  }

  /** The nested directory that a canonical tree spells out. */
  ghost function NestedOf(g: Digester, t: Tree): (nd: Nested)
    requires Canonical(g, t)
    ensures forall x :: x in nd.subdirs <==> x in DirNames(t.dir)
    decreases t
  {
    Nested(FilesOf(t.dir), LinksOf(t.dir),
           map x | x in DirNames(t.dir) :: NestedOf(g, t.kids[IndexOf(DirNames(t.dir), x)].value))
  }

  lemma FilesWritten(d: Directory)
    requires Sorted(FileNames(d))
    ensures FileNodes(FilesOf(d)) == d.files
  {
    hide FileNodes, SortedKeys, Sorted;
    var m := FilesOf(d);
    SortedKeysOf(FileNames(d), m.Keys);
    FileNodesAre(m);
    forall i | 0 <= i < |d.files|
      ensures FileNodes(m)[i] == d.files[i]
    {
      IndexIs(FileNames(d), i);
    }
  }

  lemma LinksWritten(d: Directory)
    requires Sorted(LinkNames(d))
    ensures SymlinkNodes(LinksOf(d)) == d.symlinks
  {
    hide SymlinkNodes, SortedKeys, Sorted;
    var m := LinksOf(d);
    SortedKeysOf(LinkNames(d), m.Keys);
    LinkNodesAre(m);
    forall i | 0 <= i < |d.symlinks|
      ensures SymlinkNodes(m)[i] == d.symlinks[i]
    {
      IndexIs(LinkNames(d), i);
    }
  }

  lemma CanonicalKids(g: Digester, t: Tree, i: nat)
    requires Canonical(g, t) && i < |t.kids|
    ensures |t.dir.directories| == |t.kids| && SubdirKeys(NestedOf(g, t)) == DirNames(t.dir)
    ensures DirNames(t.dir)[i] in NestedOf(g, t).subdirs
    ensures t.kids[i].Some? && Canonical(g, t.kids[i].value)
    ensures t.dir.directories[i].digest == g(t.kids[i].value.dir)
    ensures NestedOf(g, t).subdirs[DirNames(t.dir)[i]] == NestedOf(g, t.kids[i].value)
  {
    hide SortedKeys, Sorted, Tidy, FilesOf, LinksOf;
    IndexIs(DirNames(t.dir), i);
    SortedKeysOf(DirNames(t.dir), NestedOf(g, t).subdirs.Keys);
  }

  lemma CanonicalParts(g: Digester, t: Tree)
    requires Canonical(g, t)
    ensures Sorted(FileNames(t.dir)) && Sorted(LinkNames(t.dir)) && |t.kids| == |t.dir.directories|
    ensures NestedOf(g, t).files == FilesOf(t.dir) && NestedOf(g, t).symlinks == LinksOf(t.dir)
    ensures |SubdirKeys(NestedOf(g, t))| == |t.kids|
  {
    hide SortedKeys, Sorted, Tidy, FilesOf, LinksOf;
    SortedKeysOf(DirNames(t.dir), NestedOf(g, t).subdirs.Keys);
  }

  /** Every canonical tree is what some nested directory is written as. */
  lemma {:induction false} CanonicalIsWritten(g: Digester, t: Tree)
    requires Canonical(g, t)
    ensures TreeOf(g, NestedOf(g, t)) == t
    decreases t
  {
    hide Canonical, ToDirectory, Sorted, FileNodes, SymlinkNodes, DirectoryNodes, TreeOf, SubdirKeys, NestedOf,
         FilesOf, LinksOf;
    var nd := NestedOf(g, t);
    CanonicalParts(g, t);
    FilesWritten(t.dir);
    LinksWritten(t.dir);
    WrittenParts(g, nd);
    MessageNodes(g, nd);
    TreeOfDir(g, nd);
    forall i | 0 <= i < |t.kids|
      ensures ToDirectory(g, nd).directories[i] == t.dir.directories[i] && TreeOf(g, nd).kids[i] == t.kids[i]
    {
      CanonicalKids(g, t, i);
      CanonicalIsWritten(g, t.kids[i].value);
      TreeOfDir(g, NestedOf(g, t.kids[i].value));
    }
    assert ToDirectory(g, nd).directories == t.dir.directories;
    assert TreeOf(g, nd).kids == t.kids;
  }

  lemma WrittenParts(g: Digester, nd: Nested)
    ensures ToDirectory(g, nd).files == FileNodes(nd.files) && ToDirectory(g, nd).symlinks == SymlinkNodes(nd.symlinks)
    ensures |ToDirectory(g, nd).directories| == |TreeOf(g, nd).kids| == |SubdirKeys(nd)|
  {
  }

  lemma {:induction false} CanonicalTidy(g: Digester, t: Tree)
    requires Canonical(g, t)
    ensures TidyNested(NestedOf(g, t))
    decreases t
  {
    var nd := NestedOf(g, t);
    NamesInOrder(t.dir);
    forall i | 0 <= i < |t.kids|
      ensures TidyNested(NestedOf(g, t.kids[i].value))
    {
      CanonicalTidy(g, t.kids[i].value);
    }
    TidyNames(t.dir);
  }

  lemma NamesInOrder(d: Directory)
    ensures NodeNames(d) == FileNames(d) + LinkNames(d) + DirNames(d)
  {
  }

  lemma TidyNames(d: Directory)
    requires TidyDirectory(d)
    ensures forall x :: x in FileNames(d) || x in LinkNames(d) || x in DirNames(d) ==> GoodName(x)
    ensures forall x :: x in FileNames(d) ==> x !in LinkNames(d) && x !in DirNames(d)
    ensures forall x :: x in LinkNames(d) ==> x !in DirNames(d)
  {
    var a, b, c, all := FileNames(d), LinkNames(d), DirNames(d), NodeNames(d);
    assert forall i :: 0 <= i < |a| ==> all[i] == a[i];
    assert forall i :: 0 <= i < |b| ==> all[|a| + i] == b[i];
    assert forall i :: 0 <= i < |c| ==> all[|a| + |b| + i] == c[i];
  }

  /** A canonical, completely stored tree merged with itself keeps its digest. */
  method MergeWithSelf(g: Digester, dirs: seq<Directory>, ghost t: Tree) returns (r: MergeOutcome)
    requires dirs != [] && RootTree(t, dirs, MergeStore(g, dirs, dirs)) && Canonical(g, t)
    ensures r.Merged? && r.root == g(dirs[0])
  {
    hide Flat, Fold, Unfolds, Represents, StoreBlobs, Items, NewDigests, MergeStore, Canonical, TreeOf, ToDirectory,
         TidyNested,
         NestedOf;
    ghost var own := NestedOf(g, t);
    CanonicalIsWritten(g, t);
    CanonicalTidy(g, t);
    SelfMergeRepresents(g, own);
    TreeOfDir(g, own);
    ghost var nd;
    r, nd := CreateMergedDigest(g, dirs, dirs, map[], t, t);
    RepresentsUnique(nd, own, Items(MergedMap(t, t).value));
  }
}
