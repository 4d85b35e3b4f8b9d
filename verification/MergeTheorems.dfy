/** What merging two trees means. */
module MergeTheorems {
  import opened Blake3Spec
  import opened Paths
  import opened CasHash
  import opened NestedTree
  import opened PathMaps
  import opened Messages
  import opened Flatten
  import opened MergeUtil

  ghost predicate TidyTree(t: Tree) {
    Shaped(t) && Tidy(t)
  }

  /** `e` is one of the tree's paths with what is there. */
  ghost predicate Lists(t: Tree, e: Entry)
    requires TidyTree(t)
  {
    e in Flat(t, [])
  }

  /** Wherever both trees have a path they have the same kind of node there. */
  ghost predicate KindConsistent(t1: Tree, t2: Tree)
    requires TidyTree(t1) && TidyTree(t2)
  {
    forall a, b :: Lists(t1, a) && Lists(t2, b) && a.path == b.path ==> a.meta.SameKind(b.meta)
  }

  /** Which pairs of nodes collide, by their kinds. A file collides unless what is
      there has its digest and executable bit; a symlink counts as an empty
      digest, and neither it nor a directory is executable. A symlink collides
      with another target only, a directory with nothing. */
  predicate Collide(existing: Meta, added: Meta) {
    match (existing, added)
    case (FileMeta(f), FileMeta(g)) =>
      || f.digest.hashOther != g.digest.hashOther
      || f.digest.sizeBytes != g.digest.sizeBytes
      || f.executable != g.executable
    case (LinkMeta(_), FileMeta(g)) =>
      g.digest.hashOther != "" || g.digest.sizeBytes != 0 || g.executable
    case (DirMeta(k), FileMeta(g)) =>
      k.hashOther != g.digest.hashOther || k.sizeBytes != g.digest.sizeBytes || g.executable
    case (LinkMeta(t), LinkMeta(u)) => t != u
    case (FileMeta(_), LinkMeta(_)) => false
    case (DirMeta(_), LinkMeta(_)) => false
    case (_, DirMeta(_)) => false
  }

  lemma ClashByKinds(existing: Meta, added: Meta)
    ensures Clash(existing, added) <==> Collide(existing, added)
  {
  }

  /** The second tree brings a node that collides with the first tree's. */
  ghost predicate ClashingPath(t1: Tree, t2: Tree)
    requires TidyTree(t1) && TidyTree(t2)
  {
    exists a, b :: Lists(t1, a) && Lists(t2, b) && a.path == b.path && Collide(a.meta, b.meta)
  }

  /** A path that is a different file or a different symlink in each tree, as
      far as digests are compared. */
  ghost predicate DifferingPath(t1: Tree, t2: Tree)
    requires TidyTree(t1) && TidyTree(t2)
  {
    exists a, b :: Lists(t1, a) && Lists(t2, b) && a.path == b.path && !a.meta.Alike(b.meta)
  }

  /** A path with files whose digests compare equal but are not the same. */
  ghost predicate HiddenDifference(t1: Tree, t2: Tree)
    requires TidyTree(t1) && TidyTree(t2)
  {
    exists a, b :: Lists(t1, a) && Lists(t2, b) && a.path == b.path && a.meta.Alike(b.meta)
                   && a.meta.ToItem() != b.meta.ToItem()
  }

  /** For any two tidy trees: the merge fails exactly when some path of the
      second collides with the first's entry there. */
  lemma FailsOnClash(t1: Tree, t2: Tree)
    requires TidyTree(t1) && TidyTree(t2)
    ensures MergedMap(t1, t2).None? <==> ClashingPath(t1, t2)
  {
    hide Flat, Fold, Clash, Collide;
    MergedEntries(t1, t2);
    FlatConsistent(t1);
    FlatConsistent(t2);
    var one := Fold(map[], Flat(t1, [])).value;
    if Collides(one, Flat(t2, [])) {
      var b :| b in Flat(t2, []) && Key(b) in one && Clash(one[Key(b)], b.meta);
      var a :| a in Flat(t1, []) && Key(a) == Key(b);
      SameKeySamePath(a, b);
      ClashByKinds(a.meta, b.meta);
      assert Lists(t1, a) && Lists(t2, b);
    }
    if ClashingPath(t1, t2) {
      var a, b :| Lists(t1, a) && Lists(t2, b) && a.path == b.path && Collide(a.meta, b.meta);
      ClashByKinds(a.meta, b.meta);
      assert Key(a) == Key(b) && one[Key(a)] == a.meta;
    }
  }

  /** For trees that agree on kinds: exactly when a shared file path differs in
      digest or executable bit, or a shared symlink path differs in target. */
  lemma FailsOnDifference(t1: Tree, t2: Tree)
    requires TidyTree(t1) && TidyTree(t2) && KindConsistent(t1, t2)
    ensures MergedMap(t1, t2).None? <==> DifferingPath(t1, t2)
  {
    hide Lists, TidyTree;
    FailsOnClash(t1, t2);
    forall a, b | Lists(t1, a) && Lists(t2, b) && a.path == b.path
      ensures Collide(a.meta, b.meta) <==> !a.meta.Alike(b.meta)
    {
      assert a.meta.SameKind(b.meta);
    }
  }

  lemma AlikeIsSymmetric(a: Meta, b: Meta)
    ensures a.Alike(b) <==> b.Alike(a)
  {
  }

  lemma DifferenceIsSymmetric(t1: Tree, t2: Tree)
    requires TidyTree(t1) && TidyTree(t2)
    ensures KindConsistent(t1, t2) <==> KindConsistent(t2, t1)
    ensures DifferingPath(t1, t2) <==> DifferingPath(t2, t1)
    ensures HiddenDifference(t1, t2) <==> HiddenDifference(t2, t1)
  {
    DifferenceTurned(t1, t2);
    DifferenceTurned(t2, t1);
  }

  lemma DifferenceTurned(t1: Tree, t2: Tree)
    requires TidyTree(t1) && TidyTree(t2)
    ensures KindConsistent(t1, t2) ==> KindConsistent(t2, t1)
    ensures DifferingPath(t1, t2) ==> DifferingPath(t2, t1)
    ensures HiddenDifference(t1, t2) ==> HiddenDifference(t2, t1)
  {
    hide Lists, TidyTree;
    if DifferingPath(t1, t2) {
      var a, b :| Lists(t1, a) && Lists(t2, b) && a.path == b.path && !a.meta.Alike(b.meta);
      AlikeIsSymmetric(a.meta, b.meta);
      assert Lists(t2, b) && Lists(t1, a);
    }
    if HiddenDifference(t1, t2) {
      var a, b :| Lists(t1, a) && Lists(t2, b) && a.path == b.path && a.meta.Alike(b.meta)
                  && a.meta.ToItem() != b.meta.ToItem();
      AlikeIsSymmetric(a.meta, b.meta);
      assert Lists(t2, b) && Lists(t1, a);
    }
  }

  /** One of the two trees has this item at this path. */
  ghost predicate InEither(t1: Tree, t2: Tree, q: seq<string>, item: Item)
    requires TidyTree(t1) && TidyTree(t2)
  {
    exists e :: (Lists(t1, e) || Lists(t2, e)) && e.path == q && e.meta.ToItem() == item
  }

  ghost predicate HasPath(t: Tree, q: seq<string>)
    requires TidyTree(t)
  {
    exists e :: Lists(t, e) && e.path == q
  }

  /** The first tree has this item at this path, or the second has it and the
      first has nothing there. */
  ghost predicate InMerged(t1: Tree, t2: Tree, q: seq<string>, item: Item)
    requires TidyTree(t1) && TidyTree(t2)
  {
    exists e: Entry :: e.path == q && e.meta.ToItem() == item && (Lists(t1, e) || (Lists(t2, e) && !HasPath(t1, q)))
  }

  /** The merged paths are the union of both trees' paths: each has the first
      tree's item if that has one, else the second's. Where no two files hide a
      difference it is whatever item either tree has. */
  lemma MergeIsUnion(t1: Tree, t2: Tree, q: seq<string>, item: Item)
    requires TidyTree(t1) && TidyTree(t2) && MergedMap(t1, t2).Some?
    ensures var at := AtPath(Items(MergedMap(t1, t2).value), q);
            && (at == Some(item) <==> InMerged(t1, t2, q, item))
            && (at.Some? <==> HasPath(t1, q) || HasPath(t2, q))
            && (KindConsistent(t1, t2) && !HiddenDifference(t1, t2) ==>
                  (at == Some(item) <==> InEither(t1, t2, q, item)))
  {
    hide Flat, Fold, NodePath, Lists, KindConsistent, Tidy;
    if AtPath(Items(MergedMap(t1, t2).value), q).Some? {
      var e := SourceOf(t1, t2, q);
      HoldsItem(t1, t2, e);
    }
    if HasPath(t1, q) || HasPath(t2, q) {
      var e :| (Lists(t1, e) || (Lists(t2, e) && !HasPath(t1, q))) && e.path == q;
      HoldsItem(t1, t2, e);
    }
    if InMerged(t1, t2, q, item) {
      var e: Entry :| e.path == q && e.meta.ToItem() == item && (Lists(t1, e) || (Lists(t2, e) && !HasPath(t1, q)));
      HoldsItem(t1, t2, e);
    }
    if KindConsistent(t1, t2) && !HiddenDifference(t1, t2) && InEither(t1, t2, q, item) {
      EitherIsMerged(t1, t2, q, item);
    }
  }

  lemma EitherIsMerged(t1: Tree, t2: Tree, q: seq<string>, item: Item)
    requires TidyTree(t1) && TidyTree(t2) && KindConsistent(t1, t2) && MergedMap(t1, t2).Some?
    requires !HiddenDifference(t1, t2) && InEither(t1, t2, q, item)
    ensures InMerged(t1, t2, q, item)
  {
    hide Lists, TidyTree;
    FailsOnDifference(t1, t2);
    var e :| (Lists(t1, e) || Lists(t2, e)) && e.path == q && e.meta.ToItem() == item;
    if !Lists(t1, e) && HasPath(t1, q) {
      var a :| Lists(t1, a) && a.path == q;
      assert a.meta.Alike(e.meta) && a.meta.ToItem() == e.meta.ToItem();
    }
  }

  lemma SourceOf(t1: Tree, t2: Tree, q: seq<string>) returns (e: Entry)
    requires TidyTree(t1) && TidyTree(t2) && MergedMap(t1, t2).Some?
    requires AtPath(Items(MergedMap(t1, t2).value), q).Some?
    ensures (Lists(t1, e) || (Lists(t2, e) && !HasPath(t1, q))) && e.path == q
  {
    hide Flat, Fold, Collides;
    MergedEntries(t1, t2);
    assert NodePath(q);
    NodePathNonEmpty(q);
    if a :| Lists(t1, a) && a.path == q {
      e := a;
      return;
    }
    e :| (Lists(t1, e) || Lists(t2, e)) && Key(e) == Join(q);
    ListedNames(t1, e);
    ListedNames(t2, e);
    KeyIsPath(e, q);
  }

  lemma ListedNames(t: Tree, e: Entry)
    requires TidyTree(t)
    ensures Lists(t, e) ==> NodePath(e.path)
  {
    if Lists(t, e) { EntryNames(t, [], e); }
  }

  lemma KeyIsPath(e: Entry, q: seq<string>)
    requires NodePath(e.path) && NodePath(q) && Key(e) == Join(q)
    ensures e.path == q
  {
    NodePathText(e.path);
    NodePathText(q);
  }

  /** The merged map holds the item of every entry of the first tree, and of
      every entry of the second at a path the first does not have. */
  lemma HoldsItem(t1: Tree, t2: Tree, e: Entry)
    requires TidyTree(t1) && TidyTree(t2) && MergedMap(t1, t2).Some?
    requires Lists(t1, e) || (Lists(t2, e) && !HasPath(t1, e.path))
    ensures NodePath(e.path) && AtPath(Items(MergedMap(t1, t2).value), e.path) == Some(e.meta.ToItem())
  {
    hide Flat, Fold, Clash, NodePath;
    MergedEntries(t1, t2);
    FlatConsistent(t1);
    FlatConsistent(t2);
    NodePathNonEmpty(e.path);
    var one, m := Fold(map[], Flat(t1, [])).value, MergedMap(t1, t2).value;
    if !Lists(t1, e) && Key(e) in one {
      var a :| Lists(t1, a) && Key(a) == Key(e);
      SameKeySamePath(a, e);
    }
  }

  lemma NodePathNonEmpty(q: seq<string>)
    requires NodePath(q)
    ensures q != []
  {
  }

  /** For trees that agree on kinds: swapping the two changes nothing about
      whether the merge fails, and nothing about the merged items exactly when no
      two files hide a difference. */
  lemma MergeIsSymmetric(t1: Tree, t2: Tree)
    requires TidyTree(t1) && TidyTree(t2) && KindConsistent(t1, t2)
    ensures MergedMap(t1, t2).None? <==> MergedMap(t2, t1).None?
    ensures MergedMap(t1, t2).Some? ==>
              (Items(MergedMap(t1, t2).value) == Items(MergedMap(t2, t1).value) <==> !HiddenDifference(t1, t2))
  {
    hide Flat, Fold, Tidy, Shaped, KindConsistent, Lists;
    DifferenceIsSymmetric(t1, t2);
    FailsOnDifference(t1, t2);
    FailsOnDifference(t2, t1);
    if MergedMap(t1, t2).Some? { BothMergeIffNoDifference(t1, t2); }
  }

  /** Merging in either order comes to the same: both fail, or both succeed with the same items. */
  ghost predicate OrderIrrelevant(t1: Tree, t2: Tree)
    requires TidyTree(t1) && TidyTree(t2)
  {
    var a, b := MergedMap(t1, t2), MergedMap(t2, t1);
    (a.None? && b.None?) || (a.Some? && b.Some? && Items(a.value) == Items(b.value))
  }

  /** Two trees without a differing path agree on kinds wherever they overlap. */
  lemma NoDifferenceIsConsistent(t1: Tree, t2: Tree)
    requires TidyTree(t1) && TidyTree(t2) && !DifferingPath(t1, t2)
    ensures KindConsistent(t1, t2)
  {
    hide Lists, TidyTree;
    forall a, b | Lists(t1, a) && Lists(t2, b) && a.path == b.path
      ensures a.meta.SameKind(b.meta)
    {
      assert a.meta.Alike(b.meta);
    }
  }

  /** Where both orders succeed with the same items nothing differs at any
      path: each order keeps its first tree's entry. */
  lemma SameItemsNoDifference(t1: Tree, t2: Tree)
    requires TidyTree(t1) && TidyTree(t2) && MergedMap(t1, t2).Some? && MergedMap(t2, t1).Some?
    requires Items(MergedMap(t1, t2).value) == Items(MergedMap(t2, t1).value)
    ensures !DifferingPath(t1, t2) && !HiddenDifference(t1, t2)
  {
    hide Flat, Fold, Clash, Tidy, Shaped, MergedMap, Items, Lists;
    forall a, b | Lists(t1, a) && Lists(t2, b) && a.path == b.path
      ensures a.meta.ToItem() == b.meta.ToItem() && a.meta.Alike(b.meta)
    {
      SameItemThere(t1, t2, a, b);
    }
  }

  lemma SameItemThere(t1: Tree, t2: Tree, a: Entry, b: Entry)
    requires TidyTree(t1) && TidyTree(t2) && MergedMap(t1, t2).Some? && MergedMap(t2, t1).Some?
    requires Items(MergedMap(t1, t2).value) == Items(MergedMap(t2, t1).value)
    requires Lists(t1, a) && Lists(t2, b) && a.path == b.path
    ensures a.meta.ToItem() == b.meta.ToItem() && a.meta.Alike(b.meta)
  {
    hide Flat, Fold, Clash, Tidy, Shaped, MergedMap;
    MergedEntries(t1, t2);
    MergedEntries(t2, t1);
    var m, n := MergedMap(t1, t2).value, MergedMap(t2, t1).value;
    assert m[Key(a)] == a.meta && n[Key(b)] == b.meta;
    assert Items(m)[Key(a)] == Items(n)[Key(a)];
  }

  lemma ItemsIncluded(t1: Tree, t2: Tree)
    requires TidyTree(t1) && TidyTree(t2) && MergedMap(t1, t2).Some? && MergedMap(t2, t1).Some?
    requires !DifferingPath(t1, t2) && !HiddenDifference(t1, t2)
    ensures var a, b := Items(MergedMap(t1, t2).value), Items(MergedMap(t2, t1).value);
            forall x :: x in a ==> x in b && a[x] == b[x]
  {
    hide Flat, Fold, Tidy, Shaped, NodePath, DifferingPath, HiddenDifference;
    MergedEntries(t1, t2);
    var a, b := Items(MergedMap(t1, t2).value), Items(MergedMap(t2, t1).value);
    forall x | x in a
      ensures x in b && a[x] == b[x]
    {
      var e :| (Lists(t1, e) || Lists(t2, e)) && Key(e) == x;
      ListedNames(t1, e);
      ListedNames(t2, e);
      NodePathNonEmpty(e.path);
      MergedEither(t1, t2, e.path);
    }
  }

  lemma MergedEither(t1: Tree, t2: Tree, q: seq<string>)
    requires TidyTree(t1) && TidyTree(t2) && MergedMap(t1, t2).Some? && MergedMap(t2, t1).Some?
    requires !DifferingPath(t1, t2) && !HiddenDifference(t1, t2) && (HasPath(t1, q) || HasPath(t2, q))
    ensures NodePath(q) && AtPath(Items(MergedMap(t1, t2).value), q) == AtPath(Items(MergedMap(t2, t1).value), q)
    ensures AtPath(Items(MergedMap(t1, t2).value), q).Some?
  {
    hide Flat, Fold, Tidy, Shaped, NodePath, Lists, AtPath;
    if HasPath(t1, q) {
      var e :| Lists(t1, e) && e.path == q;
      HoldsItem(t1, t2, e);
      if HasPath(t2, q) {
        var f :| Lists(t2, f) && f.path == q;
        HoldsItem(t2, t1, f);
        assert e.meta.Alike(f.meta) && e.meta.ToItem() == f.meta.ToItem();
      } else {
        HoldsItem(t2, t1, e);
      }
    } else {
      var e :| Lists(t2, e) && e.path == q;
      HoldsItem(t1, t2, e);
      HoldsItem(t2, t1, e);
    }
  }

  /** For any two tidy trees both orders succeed with the same items if and only
      if they agree on kinds and differ at no shared path, openly or hidden. */
  lemma BothMergeIffNoDifference(t1: Tree, t2: Tree)
    requires TidyTree(t1) && TidyTree(t2)
    ensures (&& MergedMap(t1, t2).Some? && MergedMap(t2, t1).Some?
             && Items(MergedMap(t1, t2).value) == Items(MergedMap(t2, t1).value))
            <==> KindConsistent(t1, t2) && !DifferingPath(t1, t2) && !HiddenDifference(t1, t2)
  {
    hide Flat, Fold, Tidy, Shaped, KindConsistent, Lists;
    DifferenceIsSymmetric(t1, t2);
    if !DifferingPath(t1, t2) && !HiddenDifference(t1, t2) {
      NoDifferenceIsConsistent(t1, t2);
      FailsOnDifference(t1, t2);
      FailsOnDifference(t2, t1);
      ItemsIncluded(t1, t2);
      ItemsIncluded(t2, t1);
    } else if MergedMap(t1, t2).Some? && MergedMap(t2, t1).Some?
              && Items(MergedMap(t1, t2).value) == Items(MergedMap(t2, t1).value) {
      SameItemsNoDifference(t1, t2);
    }
  }

  /** The order of two trees does not matter exactly when nothing differs at any
      shared path, or they collide whichever of them is entered first. */
  lemma OrderIrrelevantExactly(t1: Tree, t2: Tree)
    requires TidyTree(t1) && TidyTree(t2)
    ensures OrderIrrelevant(t1, t2)
            <==> || (!DifferingPath(t1, t2) && !HiddenDifference(t1, t2))
                 || (ClashingPath(t1, t2) && ClashingPath(t2, t1))
  {
    hide Flat, Fold, Tidy, Shaped, KindConsistent, Lists;
    FailsOnClash(t1, t2);
    FailsOnClash(t2, t1);
    BothMergeIffNoDifference(t1, t2);
    if !DifferingPath(t1, t2) { NoDifferenceIsConsistent(t1, t2); }
  }

  /** One of the two trees has a path below this one. */
  ghost predicate HasBelow(t1: Tree, t2: Tree, q: seq<string>)
    requires TidyTree(t1) && TidyTree(t2)
  {
    exists p :: Above(q, p) && (HasPath(t1, p) || HasPath(t2, p))
  }

  /** The merged tree answers every lookup from the two trees' paths, the first
      tree's before the second's; its directories are those and whatever either
      tree has a path below. */
  lemma MergedLookups(t1: Tree, t2: Tree, nd: Nested, q: seq<string>)
    requires TidyTree(t1) && TidyTree(t2) && MergedMap(t1, t2).Some?
    requires Represents(nd, Items(MergedMap(t1, t2).value))
    ensures forall file :: FileAt(nd, q) == Some(file) <==> InMerged(t1, t2, q, FileItem(file))
    ensures forall target :: LinkAt(nd, q) == Some(target) <==> InMerged(t1, t2, q, LinkItem(target))
    ensures HasDir(nd, q) <==> InMerged(t1, t2, q, DirItem) || HasBelow(t1, t2, q)
  {
    hide Flat, Fold, Tidy, Lists, InMerged, InEither, HasPath, Items, AtPath, FileAt, LinkAt, HasDir, Above;
    var m := Items(MergedMap(t1, t2).value);
    forall item
      ensures AtPath(m, q) == Some(item) <==> InMerged(t1, t2, q, item)
    {
      MergeIsUnion(t1, t2, q, item);
    }
    forall p
      ensures AtPath(m, p).Some? <==> HasPath(t1, p) || HasPath(t2, p)
    {
      MergeIsUnion(t1, t2, p, DirItem);
    }
  }

  /** The same by the nodes of the two trees: every file and symlink of the merged
      tree is one of the first tree, or one of the second at a path the first does
      not have. */
  lemma MergedNodes(t1: Tree, t2: Tree, nd: Nested, q: seq<string>)
    requires TidyTree(t1) && TidyTree(t2) && MergedMap(t1, t2).Some?
    requires Represents(nd, Items(MergedMap(t1, t2).value))
    ensures forall file :: FileAt(nd, q) == Some(file) <==>
              var e := Entry(q, FileMeta(file)); Lists(t1, e) || (Lists(t2, e) && !HasPath(t1, q))
    ensures forall target :: LinkAt(nd, q) == Some(target) <==>
              var e := Entry(q, LinkMeta(target)); Lists(t1, e) || (Lists(t2, e) && !HasPath(t1, q))
  {
    hide Flat, Fold, Tidy, Lists, HasPath, Items, Represents, FileAt, LinkAt, HasDir, HasBelow, TidyTree, MergedMap;
    MergedLookups(t1, t2, nd, q);
    forall file
      ensures InMerged(t1, t2, q, FileItem(file)) <==>
                var e := Entry(q, FileMeta(file)); Lists(t1, e) || (Lists(t2, e) && !HasPath(t1, q))
    {
      var e := Entry(q, FileMeta(file));
      assert e.path == q && e.meta.ToItem() == FileItem(file);
      assert forall d: Entry :: d.path == q && d.meta.ToItem() == FileItem(file) ==> d == e;
    }
    forall target
      ensures InMerged(t1, t2, q, LinkItem(target)) <==>
                var e := Entry(q, LinkMeta(target)); Lists(t1, e) || (Lists(t2, e) && !HasPath(t1, q))
    {
      var e := Entry(q, LinkMeta(target));
      assert e.path == q && e.meta.ToItem() == LinkItem(target);
      assert forall d: Entry :: d.path == q && d.meta.ToItem() == LinkItem(target) ==> d == e;
    }
  }

  /** Where the trees agree on kinds the merged directories are exactly theirs. */
  lemma MergedDirectories(t1: Tree, t2: Tree, nd: Nested, q: seq<string>)
    requires TidyTree(t1) && TidyTree(t2) && KindConsistent(t1, t2) && MergedMap(t1, t2).Some?
    requires Represents(nd, Items(MergedMap(t1, t2).value))
    ensures HasDir(nd, q) <==> InMerged(t1, t2, q, DirItem)
  {
    hide Flat, Fold, Tidy, KindConsistent, Lists, InMerged, HasPath, Items, AtPath, HasDir, Above, Represents;
    MergedLookups(t1, t2, nd, q);
    if HasBelow(t1, t2, q) {
      var p :| Above(q, p) && (HasPath(t1, p) || HasPath(t2, p));
      var item := ItemAt(t1, t2, p);
      AncestorInMerged(t1, t2, p, item, q);
    }
  }

  lemma ItemAt(t1: Tree, t2: Tree, p: seq<string>) returns (item: Item)
    requires TidyTree(t1) && TidyTree(t2) && (HasPath(t1, p) || HasPath(t2, p))
    ensures InMerged(t1, t2, p, item)
  {
    hide TidyTree, Lists;
    var e: Entry :| e.path == p && (Lists(t1, e) || (Lists(t2, e) && !HasPath(t1, p)));
    item := e.meta.ToItem();
  }

  lemma AncestorInMerged(t1: Tree, t2: Tree, p: seq<string>, item: Item, q: seq<string>)
    requires TidyTree(t1) && TidyTree(t2) && KindConsistent(t1, t2) && InMerged(t1, t2, p, item) && Above(q, p)
    ensures InMerged(t1, t2, q, DirItem)
  {
    hide Flat, Tidy, Shaped;
    var e: Entry :| e.path == p && e.meta.ToItem() == item && (Lists(t1, e) || (Lists(t2, e) && !HasPath(t1, p)));
    var t := if Lists(t1, e) then t1 else t2;
    AncestorsListed(t, [], e, q);
    var d :| d in Flat(t, []) && d.path == q && d.meta.DirMeta?;
    assert Lists(t, d) && d.meta.ToItem() == DirItem;
    if t == t2 && HasPath(t1, q) {
      var a :| Lists(t1, a) && a.path == q;
      assert a.meta.SameKind(d.meta) && a.meta.ToItem() == DirItem;
    }
  }

  /** Kinds matter: a symlink entered over a file is ignored, a file entered
      over a symlink fails the merge. */
  lemma KindClashIsAsymmetric(file: File, target: string)
    requires file.digest.Key() != DigestKey("", 0)
    ensures var f := Tree(Directory([FileNode("a", file)], [], []), []);
            var l := Tree(Directory([], [SymlinkNode("a", target)], []), []);
            TidyTree(f) && TidyTree(l) && MergedMap(f, l).Some? && MergedMap(l, f).None?
  {
    var f := Tree(Directory([FileNode("a", file)], [], []), []);
    var l := Tree(Directory([], [SymlinkNode("a", target)], []), []);
    OneFile("a", file);
    OneLink("a", target);
    hide Flat, Fold, Tidy, Shaped, Lists;
    FailsOnClash(f, l);
    FailsOnClash(l, f);
    var ef, el := Entry(["a"], FileMeta(file)), Entry(["a"], LinkMeta(target));
    assert Lists(l, el) && Lists(f, ef) && Collide(el.meta, ef.meta);
  }

  /** A file over a directory of another digest fails the merge; in the other
      order it merges, and the file stays at its path. */
  lemma FileOverDirectory(file: File, k: DigestKey)
    requires k != file.digest.Key() || file.executable
    ensures var f := Tree(Directory([FileNode("a", file)], [], []), []);
            var d := Tree(Directory([], [], [DirectoryNode("a", k)]), [None]);
            && TidyTree(f) && TidyTree(d) && MergedMap(d, f).None?
            && MergedMap(f, d).Some? && InMerged(f, d, ["a"], FileItem(file))
  {
    var f := Tree(Directory([FileNode("a", file)], [], []), []);
    var d := Tree(Directory([], [], [DirectoryNode("a", k)]), [None]);
    OneFile("a", file);
    OneDirectory("a", k);
    hide Flat, Fold, Tidy, Shaped, Lists;
    FailsOnClash(f, d);
    FailsOnClash(d, f);
    var ef, ed := Entry(["a"], FileMeta(file)), Entry(["a"], DirMeta(k));
    assert Lists(d, ed) && Lists(f, ef) && Collide(ed.meta, ef.meta);
  }

  /** The two runs themselves. */
  method FileAgainstDirectory(g: Digester, file: File, k: DigestKey) returns (over: MergeOutcome, under: MergeOutcome)
    requires k != file.digest.Key() || file.executable
    requires k != g(Directory([FileNode("a", file)], [], [])) && k != g(Directory([], [], [DirectoryNode("a", k)]))
    ensures over.Failed? && under.Merged?
  {
    var one, other := Directory([], [], [DirectoryNode("a", k)]), Directory([FileNode("a", file)], [], []);
    ghost var d, f := Tree(one, [None]), Tree(other, []);
    FileOverDirectory(file, k);
    TwoStored(g, one, other, k);
    TwoStored(g, other, one, k);
    hide Flat, Fold, Tidy, Shaped, MergeStore, InMerged;
    ghost var nd;
    over, nd := CreateMergedDigest(g, [one], [other], map[], d, f);
    under, nd := CreateMergedDigest(g, [other], [one], map[], f, d);
  }

  lemma TwoStored(g: Digester, one: Directory, other: Directory, k: DigestKey)
    requires k != g(one) && k != g(other)
    ensures k !in MergeStore(g, [one], [other])
  {
    OneStored(g, one, map[]);
    OneStored(g, other, DirectoryMap(g, [one], map[]));
  }

  lemma OneStored(g: Digester, d: Directory, m: Blobs)
    ensures DirectoryMap(g, [d], m).Keys == m.Keys + {g(d)}
  {
    assert [d][..0] == [] && DirectoryMap(g, [], m) == m;
  }

  /** Two files of one length under BLAKE3ZCC: either order merges, each keeps its own. */
  lemma HiddenDifferenceMerges(h: Scheme, a: seq<byte>, b: seq<byte>)
    requires |a| == |b| && TreeHash(h, a) != TreeHash(h, b)
    ensures var t1 := Tree(Directory([FileNode("a", File(DigestOf(h, a), false))], [], []), []);
            var t2 := Tree(Directory([FileNode("a", File(DigestOf(h, b), false))], [], []), []);
            && TidyTree(t1) && TidyTree(t2) && HiddenDifference(t1, t2)
            && MergedMap(t1, t2).Some? && MergedMap(t2, t1).Some?
            && Items(MergedMap(t1, t2).value) != Items(MergedMap(t2, t1).value)
  {
    hide TreeHash, TreeOutput;
    var f, g := File(DigestOf(h, a), false), File(DigestOf(h, b), false);
    var t1 := Tree(Directory([FileNode("a", f)], [], []), []);
    var t2 := Tree(Directory([FileNode("a", g)], [], []), []);
    OneFile("a", f);
    OneFile("a", g);
    hide Flat, Fold, Tidy, Shaped, Lists;
    var e1, e2 := Entry(["a"], FileMeta(f)), Entry(["a"], FileMeta(g));
    assert Lists(t1, e1) && Lists(t2, e2) && e1.meta.Alike(e2.meta) && e1.meta.ToItem() != e2.meta.ToItem();
    FailsOnClash(t1, t2);
    FailsOnClash(t2, t1);
    BothMergeIffNoDifference(t1, t2);
  }

  lemma OneFile(name: string, file: File)
    requires name != "" && NoSlash(name)
    ensures var t := Tree(Directory([FileNode(name, file)], [], []), []);
            TidyTree(t) && forall e :: Lists(t, e) <==> e == Entry([name], FileMeta(file))
  {
    var t := Tree(Directory([FileNode(name, file)], [], []), []);
    assert NodeNames(t.dir) == [name];
    assert [] + [name] == [name];
    assert Flat(t, []) == [Entry([name], FileMeta(file))];
  }

  lemma OneDirectory(name: string, k: DigestKey)
    requires name != "" && NoSlash(name)
    ensures var t := Tree(Directory([], [], [DirectoryNode(name, k)]), [None]);
            TidyTree(t) && forall e :: Lists(t, e) <==> e == Entry([name], DirMeta(k))
  {
    var t := Tree(Directory([], [], [DirectoryNode(name, k)]), [None]);
    assert NodeNames(t.dir) == [name];
    assert [] + [name] == [name];
    assert SubEntries(t, [], 0) == [];
    assert SubEntries(t, [], 1) == [Entry([name], DirMeta(k))];
    assert Flat(t, []) == [Entry([name], DirMeta(k))];
  }

  lemma OneLink(name: string, target: string)
    requires name != "" && NoSlash(name)
    ensures var t := Tree(Directory([], [SymlinkNode(name, target)], []), []);
            TidyTree(t) && forall e :: Lists(t, e) <==> e == Entry([name], LinkMeta(target))
  {
    var t := Tree(Directory([], [SymlinkNode(name, target)], []), []);
    assert NodeNames(t.dir) == [name];
    assert [] + [name] == [name];
    assert Flat(t, []) == [Entry([name], LinkMeta(target))];
  }
}
