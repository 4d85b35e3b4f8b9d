/** The order of the children in a Tree message. */
module TreeOrder {
  import opened StringOrder
  import opened NestedTree
  import opened Messages
  import opened MergedResult

  /** Where the message of the directory at this path stands. */
  function Place(g: Digester, nd: Nested, q: seq<string>): nat
    requires HasDir(nd, q)
    decreases |q|
  {
    var sub := nd.subdirs[q[0]];
    Start(g, nd, q[0]) + if |q| == 1 then |ToTree(g, sub).children| else Place(g, sub, q[1..])
  }

  /** How many messages stand before those of this subdirectory. */
  function Start(g: Digester, nd: Nested, x: string): nat
    requires x in nd.subdirs
  {
    |TreeChildren(g, nd, Before(nd, x))|
  }

  /** The names before this one. */
  function Before(nd: Nested, x: string): (before: seq<string>)
    requires x in nd.subdirs
    ensures forall j :: 0 <= j < |before| ==> before[j] in nd.subdirs
  {
    SubdirKeys(nd)[..IndexOf(SubdirKeys(nd), x)]
  }

  /** The messages of the i-th subdirectory: those below it, then its own. */
  lemma {:induction false} Piece(g: Digester, nd: Nested, keys: seq<string>, i: nat)
    requires i < |keys| && forall j :: 0 <= j < |keys| ==> keys[j] in nd.subdirs
    ensures var sub := ToTree(g, nd.subdirs[keys[i]]);
            var start, all := |TreeChildren(g, nd, keys[..i])|, TreeChildren(g, nd, keys);
            && |TreeChildren(g, nd, keys[..i + 1])| == start + |sub.children| + 1 <= |all|
            && all[start..start + |sub.children|] == sub.children
            && all[start + |sub.children|] == sub.root
    decreases |keys|
  {
    hide ToTree;
    var n := |keys| - 1;
    var before, last := TreeChildren(g, nd, keys[..n]), ToTree(g, nd.subdirs[keys[n]]);
    assert TreeChildren(g, nd, keys) == before + last.children + [last.root];
    if i < n {
      Piece(g, nd, keys[..n], i);
      assert keys[..n][..i] == keys[..i] && keys[..n][..i + 1] == keys[..i + 1];
    } else {
      assert keys[..i + 1] == keys;
    }
  }

  lemma ChildrenOf(g: Digester, nd: Nested)
    ensures ToTree(g, nd).children == TreeChildren(g, nd, SubdirKeys(nd))
  {
    hide TreeChildren, TreeNodes, FileNodes, SymlinkNodes, SubdirKeys;
  }

  /** The piece of a subdirectory by its name. */
  lemma PieceOf(g: Digester, nd: Nested, x: string)
    requires x in nd.subdirs
    ensures var sub, start, all := ToTree(g, nd.subdirs[x]), Start(g, nd, x), ToTree(g, nd).children;
            && start + |sub.children| < |all|
            && all[start..start + |sub.children|] == sub.children
            && all[start + |sub.children|] == sub.root
  {
    hide ToTree, TreeChildren, SubdirKeys, IndexOf;
    ChildrenOf(g, nd);
    var keys := SubdirKeys(nd);
    Piece(g, nd, keys, IndexOf(keys, x));
  }

  /** The message at the place of a path is that of the directory there. */
  lemma {:induction false} PlaceHolds(g: Digester, nd: Nested, q: seq<string>)
    requires HasDir(nd, q)
    ensures SubAt(nd, q).Some?
    ensures var all := ToTree(g, nd).children;
            Place(g, nd, q) < |all| && all[Place(g, nd, q)] == ToDirectory(g, SubAt(nd, q).value)
    decreases |q|
  {
    hide ToTree, ToDirectory, Start;
    var sub := nd.subdirs[q[0]];
    PieceOf(g, nd, q[0]);
    if |q| == 1 {
      TreeRootAgrees(g, sub);
    } else {
      PlaceHolds(g, sub, q[1..]);
      var start, all := Start(g, nd, q[0]), ToTree(g, nd).children;
      assert all[start..start + |ToTree(g, sub).children|][Place(g, sub, q[1..])] == all[Place(g, nd, q)];
    }
  }

  /** A directory comes after everything below it. */
  lemma {:induction false} AfterItsOwn(g: Digester, nd: Nested, p: seq<string>, q: seq<string>)
    requires HasDir(nd, p) && HasDir(nd, q) && Above(p, q)
    ensures Place(g, nd, q) < Place(g, nd, p)
    decreases |p|
  {
    hide ToTree, ToDirectory, Start;
    assert p[0] == q[0];
    var sub := nd.subdirs[p[0]];
    if |p| == 1 {
      PlaceHolds(g, sub, q[1..]);
    } else {
      AboveTail(p, q);
      AfterItsOwn(g, sub, p[1..], q[1..]);
    }
  }

  /** Siblings come in name order, each with everything below it. */
  lemma {:induction false} SiblingsInOrder(g: Digester, nd: Nested, p: seq<string>, q: seq<string>, k: nat)
    requires HasDir(nd, p) && HasDir(nd, q) && k < |p| && k < |q| && p[..k] == q[..k]
    requires p[k] != q[k] && Leq(p[k], q[k])
    ensures Place(g, nd, p) < Place(g, nd, q)
    decreases k
  {
    hide ToTree, ToDirectory, Start, Leq;
    if k == 0 {
      StartsInOrder(g, nd, p[0], q[0]);
      if |p| > 1 { PlaceHolds(g, nd.subdirs[p[0]], p[1..]); }
    } else {
      assert p[0] == p[..k][0] == q[..k][0] == q[0];
      assert p[1..][..k - 1] == p[..k][1..] && q[1..][..k - 1] == q[..k][1..];
      SiblingsInOrder(g, nd.subdirs[p[0]], p[1..], q[1..], k - 1);
    }
  }

  lemma StartsInOrder(g: Digester, nd: Nested, x: string, y: string)
    requires x in nd.subdirs && y in nd.subdirs && x != y && Leq(x, y)
    ensures Start(g, nd, x) + |ToTree(g, nd.subdirs[x]).children| < Start(g, nd, y)
  {
    hide ToTree, TreeChildren, SubdirKeys, SortedKeys, IndexOf, Leq;
    var keys := SubdirKeys(nd);
    SubdirsSorted(nd);
    var i, j := IndexOf(keys, x), IndexOf(keys, y);
    if j < i { LeqAntisymmetric(x, y); }
    assert i < j;
    Piece(g, nd, keys[..j], i);
    assert keys[..j][..i] == keys[..i] && keys[..j][i] == x;
  }

  lemma SubdirsSorted(nd: Nested)
    ensures Sorted(SubdirKeys(nd))
  {
  }

  /** Every message among the children has the place of exactly one path: the
      children are the directories below the root, each once, in that order. */
  lemma {:induction false} EachHasPlace(g: Digester, nd: Nested, n: nat) returns (q: seq<string>)
    requires n < |ToTree(g, nd).children|
    ensures HasDir(nd, q) && Place(g, nd, q) == n
    decreases nd
  {
    hide ToTree, ToDirectory, TreeChildren, IndexOf, SubdirKeys, SortedKeys, Sorted;
    ChildrenOf(g, nd);
    SubdirsSorted(nd);
    var keys := SubdirKeys(nd);
    var i := PieceAt(g, nd, keys, n);
    var x := keys[i];
    IndexIs(keys, i);
    var start, sub := |TreeChildren(g, nd, keys[..i])|, nd.subdirs[x];
    if n == start + |ToTree(g, sub).children| {
      q := [x];
    } else {
      var below := EachHasPlace(g, sub, n - start);
      q := [x] + below;
      assert q[1..] == below;
    }
  }

  lemma {:induction false} PieceAt(g: Digester, nd: Nested, keys: seq<string>, n: nat) returns (i: nat)
    requires forall j :: 0 <= j < |keys| ==> keys[j] in nd.subdirs
    requires n < |TreeChildren(g, nd, keys)|
    ensures i < |keys|
    ensures var start := |TreeChildren(g, nd, keys[..i])|;
            start <= n <= start + |ToTree(g, nd.subdirs[keys[i]]).children|
    decreases |keys|
  {
    hide ToTree;
    i := |keys| - 1;
    if n < |TreeChildren(g, nd, keys[..i])| {
      var last := i;
      i := PieceAt(g, nd, keys[..last], n);
      assert keys[..last][..i] == keys[..i];
    }
  }
}
