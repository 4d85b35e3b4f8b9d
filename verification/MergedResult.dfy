/** The messages a nested directory is written as, as a tree: flattening it
    gives exactly the directory's lookups. */
module MergedResult {
  import opened Paths
  import opened StringOrder
  import opened NestedTree
  import opened Messages
  import opened Flatten

  /** The tree of messages of a nested directory. */
  function TreeOf(g: Digester, nd: Nested): Tree
    decreases nd, |nd.subdirs.Keys| + 1
  {
    Tree(ToDirectory(g, nd), KidsOf(g, nd, SubdirKeys(nd)))
  }

  function KidsOf(g: Digester, nd: Nested, keys: seq<string>): (kids: seq<Option<Tree>>)
    requires forall i :: 0 <= i < |keys| ==> keys[i] in nd.subdirs
    ensures |kids| == |keys|
    decreases nd, |keys|
  {
    if keys == [] then []
    else
      var n := |keys| - 1;
      KidsOf(g, nd, keys[..n]) + [Some(TreeOf(g, nd.subdirs[keys[n]]))]
  }

  lemma {:induction false} KidsAre(g: Digester, nd: Nested, keys: seq<string>)
    requires forall i :: 0 <= i < |keys| ==> keys[i] in nd.subdirs
    ensures forall i :: 0 <= i < |keys| ==> KidsOf(g, nd, keys)[i] == Some(TreeOf(g, nd.subdirs[keys[i]]))
    decreases |keys|
  {
    hide TreeOf;
    if keys != [] { KidsAre(g, nd, keys[..|keys| - 1]); }
  }

  predicate GoodName(x: string) {
    x != "" && NoSlash(x)
  }

  /** Single-segment names, and no name used for two kinds of entry. */
  predicate TidyNested(nd: Nested)
    decreases nd
  {
    && (forall x :: x in nd.files ==> GoodName(x))
    && (forall x :: x in nd.symlinks ==> GoodName(x))
    && (forall x :: x in nd.subdirs ==> GoodName(x))
    && nd.files.Keys !! nd.symlinks.Keys && nd.files.Keys !! nd.subdirs.Keys && nd.symlinks.Keys !! nd.subdirs.Keys
    && (forall x :: x in nd.subdirs ==> TidyNested(nd.subdirs[x]))
  }

  /** The nodes of the message, by position in the sorted keys. */
  lemma MessageNodes(g: Digester, nd: Nested)
    ensures var d, keys := ToDirectory(g, nd), SubdirKeys(nd);
            && (forall i :: 0 <= i < |d.files| ==>
                  d.files[i].name in nd.files && d.files[i].file == nd.files[d.files[i].name])
            && (forall i :: 0 <= i < |d.symlinks| ==>
                  d.symlinks[i].name in nd.symlinks && d.symlinks[i].target == nd.symlinks[d.symlinks[i].name])
            && |d.directories| == |keys| == |TreeOf(g, nd).kids|
            && (forall i :: 0 <= i < |keys| ==>
                  && d.directories[i] == DirectoryNode(keys[i], ToDigest(g, nd.subdirs[keys[i]]))
                  && TreeOf(g, nd).kids[i] == Some(TreeOf(g, nd.subdirs[keys[i]])))
  {
    hide DirectoryNodes, KidsOf, SubdirKeys, FileNodes, SymlinkNodes;
    FileNodesFound(nd.files);
    LinkNodesFound(nd.symlinks);
    NodeDigests(g, nd, SubdirKeys(nd));
    KidsAre(g, nd, SubdirKeys(nd));
  }

  lemma FileNodesFound(m: map<string, File>)
    ensures var nodes := FileNodes(m);
            forall i :: 0 <= i < |nodes| ==> nodes[i].name in m && nodes[i].file == m[nodes[i].name]
  {
    hide SortedKeys, FileNodes;
    FileNodesAre(m);
  }

  lemma LinkNodesFound(m: map<string, string>)
    ensures var nodes := SymlinkNodes(m);
            forall i :: 0 <= i < |nodes| ==> nodes[i].name in m && nodes[i].target == m[nodes[i].name]
  {
    hide SortedKeys, SymlinkNodes;
    LinkNodesAre(m);
  }

  lemma FileNodesAre(m: map<string, File>)
    ensures var keys, nodes := SortedKeys(m.Keys), FileNodes(m);
            && |nodes| == |keys|
            && forall i :: 0 <= i < |keys| ==> keys[i] in m && nodes[i] == FileNode(keys[i], m[keys[i]])
  {
    hide SortedKeys;
    var keys := SortedKeys(m.Keys);
    assert forall i :: 0 <= i < |keys| ==> keys[i] in keys;
  }

  lemma LinkNodesAre(m: map<string, string>)
    ensures var keys, nodes := SortedKeys(m.Keys), SymlinkNodes(m);
            && |nodes| == |keys|
            && forall i :: 0 <= i < |keys| ==> keys[i] in m && nodes[i] == SymlinkNode(keys[i], m[keys[i]])
  {
    hide SortedKeys;
    var keys := SortedKeys(m.Keys);
    assert forall i :: 0 <= i < |keys| ==> keys[i] in keys;
  }

  lemma {:induction false} NodeDigests(g: Digester, nd: Nested, keys: seq<string>)
    requires forall i :: 0 <= i < |keys| ==> keys[i] in nd.subdirs
    ensures forall i :: 0 <= i < |keys| ==>
              DirectoryNodes(g, nd, keys)[i] == DirectoryNode(keys[i], ToDigest(g, nd.subdirs[keys[i]]))
    decreases |keys|
  {
    hide ToDigest;
    if keys != [] { NodeDigests(g, nd, keys[..|keys| - 1]); }
  }

  /** Every key of the maps has a node. */
  lemma KeyHasNode(g: Digester, nd: Nested, x: string)
    ensures x in nd.files ==> exists i :: 0 <= i < |ToDirectory(g, nd).files| && ToDirectory(g, nd).files[i].name == x
    ensures x in nd.symlinks ==>
              exists i :: 0 <= i < |ToDirectory(g, nd).symlinks| && ToDirectory(g, nd).symlinks[i].name == x
    ensures x in nd.subdirs ==> exists i :: 0 <= i < |SubdirKeys(nd)| && SubdirKeys(nd)[i] == x
  {
    hide SortedKeys, DirectoryNodes;
    FileNodesAre(nd.files);
    LinkNodesAre(nd.symlinks);
    var d := ToDirectory(g, nd);
    if x in nd.files {
      var keys := SortedKeys(nd.files.Keys);
      var i :| 0 <= i < |keys| && keys[i] == x;
      assert d.files[i].name == x;
    }
    if x in nd.symlinks {
      var keys := SortedKeys(nd.symlinks.Keys);
      var i :| 0 <= i < |keys| && keys[i] == x;
      assert d.symlinks[i].name == x;
    }
    if x in nd.subdirs {
      assert x in SubdirKeys(nd);
    }
  }

  lemma TreeOfDir(g: Digester, nd: Nested)
    ensures TreeOf(g, nd).dir == ToDirectory(g, nd)
  {
  }

  lemma {:induction false} TreeOfShaped(g: Digester, nd: Nested)
    ensures Shaped(TreeOf(g, nd))
    decreases nd
  {
    hide ToDirectory, ToDigest, TreeOf, SubdirKeys;
    TreeOfDir(g, nd);
    MessageNodes(g, nd);
    forall i | 0 <= i < |SubdirKeys(nd)|
      ensures Shaped(TreeOf(g, nd.subdirs[SubdirKeys(nd)[i]]))
    {
      TreeOfShaped(g, nd.subdirs[SubdirKeys(nd)[i]]);
    }
  }

  lemma {:induction false} TreeOfTidy(g: Digester, nd: Nested)
    requires TidyNested(nd)
    ensures Tidy(TreeOf(g, nd))
    decreases nd
  {
    hide ToDirectory, ToDigest, TidyDirectory, TreeOf, SubdirKeys, GoodName;
    TreeOfDir(g, nd);
    TidyMessage(g, nd);
    TreeKids(g, nd);
    forall i | 0 <= i < |SubdirKeys(nd)|
      ensures Tidy(TreeOf(g, nd.subdirs[SubdirKeys(nd)[i]]))
    {
      TreeOfTidy(g, nd.subdirs[SubdirKeys(nd)[i]]);
    }
  }

  lemma TreeKids(g: Digester, nd: Nested)
    ensures var kids, keys := TreeOf(g, nd).kids, SubdirKeys(nd);
            && |kids| == |keys|
            && forall i :: 0 <= i < |keys| ==> kids[i] == Some(TreeOf(g, nd.subdirs[keys[i]]))
  {
    hide ToDirectory, TreeOf, SubdirKeys;
    MessageNodes(g, nd);
  }

  lemma MessageNames(g: Digester, nd: Nested)
    ensures NodeNames(ToDirectory(g, nd)) == SortedKeys(nd.files.Keys) + SortedKeys(nd.symlinks.Keys) + SubdirKeys(nd)
  {
    hide SortedKeys, DirectoryNodes, SubdirKeys;
    FileNodesAre(nd.files);
    LinkNodesAre(nd.symlinks);
    var d := ToDirectory(g, nd);
    assert seq(|d.files|, i requires 0 <= i < |d.files| => d.files[i].name) == SortedKeys(nd.files.Keys);
    assert seq(|d.symlinks|, i requires 0 <= i < |d.symlinks| => d.symlinks[i].name) == SortedKeys(nd.symlinks.Keys);
    assert seq(|d.directories|, i requires 0 <= i < |d.directories| => d.directories[i].name) == SubdirKeys(nd);
  }

  lemma TidyMessage(g: Digester, nd: Nested)
    requires TidyNested(nd)
    ensures TidyDirectory(ToDirectory(g, nd))
  {
    hide SortedKeys, ToDirectory, Sorted, SubdirKeys;
    var fk, lk, dk := SortedKeys(nd.files.Keys), SortedKeys(nd.symlinks.Keys), SubdirKeys(nd);
    MessageNames(g, nd);
    DistinctLists(fk, lk, dk);
    GoodLists(fk, lk, dk);
  }

  lemma GoodLists(a: seq<string>, b: seq<string>, c: seq<string>)
    requires forall x :: x in a || x in b || x in c ==> GoodName(x)
    ensures forall i :: 0 <= i < |a + b + c| ==> GoodName((a + b + c)[i])
  {
    var all := a + b + c;
    assert forall i :: 0 <= i < |all| ==> all[i] in a || all[i] in b || all[i] in c;
  }

  lemma DistinctLists(a: seq<string>, b: seq<string>, c: seq<string>)
    requires Sorted(a) && Sorted(b) && Sorted(c)
    requires forall x :: x in a ==> x !in b && x !in c
    requires forall x :: x in b ==> x !in c
    ensures forall i, j :: 0 <= i < j < |a + b + c| ==> (a + b + c)[i] != (a + b + c)[j]
  {
    var all := a + b + c;
    forall i, j | 0 <= i < j < |all|
      ensures all[i] != all[j]
    {
      assert i < |a| ==> all[i] in a;
      assert |a| <= i < |a + b| ==> all[i] in b;
      assert |a + b| <= j ==> all[j] in c;
      assert |a| <= j < |a + b| ==> all[j] in b;
    }
  }

  function SubAt(nd: Nested, q: seq<string>): Option<Nested>
    decreases |q|
  {
    if q == [] || q[0] !in nd.subdirs then None
    else if |q| == 1 then Some(nd.subdirs[q[0]])
    else SubAt(nd.subdirs[q[0]], q[1..])
  }

  /** What a lookup finds, in the terms of a flattened entry. */
  ghost predicate Found(g: Digester, nd: Nested, q: seq<string>, meta: Meta) {
    match meta
    case FileMeta(file) => FileAt(nd, q) == Some(file)
    case LinkMeta(target) => LinkAt(nd, q) == Some(target)
    case DirMeta(digest) => SubAt(nd, q).Some? && digest == ToDigest(g, SubAt(nd, q).value)
  }

  lemma {:induction false} SubAtIsDir(nd: Nested, q: seq<string>)
    ensures SubAt(nd, q).Some? <==> HasDir(nd, q)
    decreases |q|
  {
    if |q| > 1 && q[0] in nd.subdirs { SubAtIsDir(nd.subdirs[q[0]], q[1..]); }
  }

  /** The flattened messages of a nested directory are exactly its lookups. */
  lemma {:induction false} FlatIsLookup(g: Digester, nd: Nested, pre: seq<string>, q: seq<string>, meta: Meta)
    requires q != []
    ensures Shaped(TreeOf(g, nd))
    ensures Entry(pre + q, meta) in Flat(TreeOf(g, nd), pre) <==> Found(g, nd, q, meta)
    decreases |q|
  {
    hide Flat, ToDirectory, ToDigest, TreeOf;
    TreeOfShaped(g, nd);
    var t, e := TreeOf(g, nd), Entry(pre + q, meta);
    if e in Flat(t, pre) { EntryIsFound(g, nd, pre, q, meta); }
    if Found(g, nd, q, meta) { FoundIsEntry(g, nd, pre, q, meta); }
  }

  lemma {:induction false} EntryIsFound(g: Digester, nd: Nested, pre: seq<string>, q: seq<string>, meta: Meta)
    requires q != [] && Shaped(TreeOf(g, nd)) && Entry(pre + q, meta) in Flat(TreeOf(g, nd), pre)
    ensures Found(g, nd, q, meta)
    decreases |q|, 0
  {
    hide Flat, ToDirectory, ToDigest, TreeOf, SubdirKeys, Found;
    var t, e := TreeOf(g, nd), Entry(pre + q, meta);
    TreeOfDir(g, nd);
    var pos := NodeOf(t, pre, e);
    EntryPath(t, pre, e, pos);
    var f, l := |t.dir.files|, |t.dir.symlinks|;
    if pos < f {
      FileIsFound(g, nd, pre, q, pos);
    } else if pos < f + l {
      LinkIsFound(g, nd, pre, q, pos - f);
    } else {
      MessageNodes(g, nd);
      var i := pos - f - l;
      var name := SubdirKeys(nd)[i];
      var child := nd.subdirs[name];
      LongerBelow(TreeOf(g, child), pre + [name], e);
      if e.path == pre + [name] {
        SameTail(pre, q, name);
        DirIsFound(g, nd, name);
      } else {
        PrefixOf(pre, q, e, TreeOf(g, child), name);
        assert pre + q == pre + [name] + q[1..];
        EntryIsFound(g, child, pre + [name], q[1..], meta);
        FoundBelow(g, nd, q, meta);
      }
    }
  }

  lemma FileIsFound(g: Digester, nd: Nested, pre: seq<string>, q: seq<string>, i: nat)
    requires i < |ToDirectory(g, nd).files| && pre + q == pre + [ToDirectory(g, nd).files[i].name]
    ensures Found(g, nd, q, FileMeta(ToDirectory(g, nd).files[i].file))
  {
    hide ToDirectory, ToDigest, TreeOf, SubdirKeys;
    TreeOfDir(g, nd);
    MessageNodes(g, nd);
    SameTail(pre, q, ToDirectory(g, nd).files[i].name);
  }

  lemma LinkIsFound(g: Digester, nd: Nested, pre: seq<string>, q: seq<string>, i: nat)
    requires i < |ToDirectory(g, nd).symlinks| && pre + q == pre + [ToDirectory(g, nd).symlinks[i].name]
    ensures Found(g, nd, q, LinkMeta(ToDirectory(g, nd).symlinks[i].target))
  {
    hide ToDirectory, ToDigest, TreeOf, SubdirKeys;
    TreeOfDir(g, nd);
    MessageNodes(g, nd);
    SameTail(pre, q, ToDirectory(g, nd).symlinks[i].name);
  }

  lemma DirIsFound(g: Digester, nd: Nested, name: string)
    requires name in nd.subdirs
    ensures Found(g, nd, [name], DirMeta(ToDigest(g, nd.subdirs[name])))
  {
    hide ToDigest;
  }

  /** A lookup of more than one name goes on in the subdirectory of the first. */
  lemma FoundBelow(g: Digester, nd: Nested, q: seq<string>, meta: Meta)
    requires |q| > 1 && q[0] in nd.subdirs
    ensures Found(g, nd, q, meta) <==> Found(g, nd.subdirs[q[0]], q[1..], meta)
  {
    hide ToDigest;
  }

  lemma SameTail(pre: seq<string>, q: seq<string>, name: string)
    ensures pre + q == pre + [name] ==> q == [name]
  {
    if pre + q == pre + [name] {
      assert q == (pre + q)[|pre|..] == (pre + [name])[|pre|..] == [name];
    }
  }

  lemma PrefixOf(pre: seq<string>, q: seq<string>, e: Entry, kid: Tree, name: string)
    requires Shaped(kid) && e in Flat(kid, pre + [name]) && e.path == pre + q
    ensures |q| > 1 && q[0] == name
  {
    var pos := NodeOf(kid, pre + [name], e);
    EntryPath(kid, pre + [name], e, pos);
    assert e.path[..|pre| + 1][|pre|] == name;
  }

  lemma {:induction false} FoundIsEntry(g: Digester, nd: Nested, pre: seq<string>, q: seq<string>, meta: Meta)
    requires q != [] && Shaped(TreeOf(g, nd)) && Found(g, nd, q, meta)
    ensures Entry(pre + q, meta) in Flat(TreeOf(g, nd), pre)
    decreases |q|
  {
    hide Flat, ToDirectory, ToDigest, TreeOf, SubdirKeys, Found, FromFile, FromLink, FromSubdir;
    FlatMembers(TreeOf(g, nd), pre, Entry(pre + q, meta));
    if |q| == 1 {
      var i := FoundHere(g, nd, pre, q, meta);
    } else {
      var child := FirstIsChild(g, nd, q, meta);
      var below := pre + [q[0]];
      FoundBelow(g, nd, q, meta);
      TreeOfShaped(g, child);
      FoundIsEntry(g, child, below, q[1..], meta);
      assert below + q[1..] == pre + q;
      var i := EntryBelow(g, nd, pre, q[0], Entry(pre + q, meta));
    }
  }

  lemma FirstIsChild(g: Digester, nd: Nested, q: seq<string>, meta: Meta) returns (child: Nested)
    requires |q| > 1 && Found(g, nd, q, meta)
    ensures q[0] in nd.subdirs && child == nd.subdirs[q[0]]
  {
    hide ToDigest;
    child := nd.subdirs[q[0]];
  }

  lemma FoundHere(g: Digester, nd: Nested, pre: seq<string>, q: seq<string>, meta: Meta) returns (i: nat)
    requires |q| == 1 && Shaped(TreeOf(g, nd)) && Found(g, nd, q, meta)
    ensures var t, e := TreeOf(g, nd), Entry(pre + q, meta);
            FromFile(t, pre, e, i) || FromLink(t, pre, e, i) || FromSubdir(t, pre, e, i)
  {
    hide Flat, ToDirectory, ToDigest, TreeOf, SubdirKeys;
    var t := TreeOf(g, nd);
    TreeOfDir(g, nd);
    MessageNodes(g, nd);
    KeyHasNode(g, nd, q[0]);
    assert q == [q[0]];
    match meta
    case FileMeta(file) => i :| 0 <= i < |t.dir.files| && t.dir.files[i].name == q[0];
    case LinkMeta(target) => i :| 0 <= i < |t.dir.symlinks| && t.dir.symlinks[i].name == q[0];
    case DirMeta(digest) => i :| 0 <= i < |SubdirKeys(nd)| && SubdirKeys(nd)[i] == q[0];
  }

  lemma EntryBelow(g: Digester, nd: Nested, pre: seq<string>, name: string, e: Entry) returns (i: nat)
    requires name in nd.subdirs && Shaped(TreeOf(g, nd)) && Shaped(TreeOf(g, nd.subdirs[name]))
    requires e in Flat(TreeOf(g, nd.subdirs[name]), pre + [name])
    ensures FromSubdir(TreeOf(g, nd), pre, e, i)
  {
    hide Flat, ToDirectory, ToDigest, TreeOf, SubdirKeys;
    TreeOfDir(g, nd);
    MessageNodes(g, nd);
    KeyHasNode(g, nd, name);
    i :| 0 <= i < |SubdirKeys(nd)| && SubdirKeys(nd)[i] == name;
  }
}
