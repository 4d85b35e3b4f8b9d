/** Flattening directory messages into paths, and entering paths into a map
    with collision detection: the specification of the merge's first half. */
module Flatten {
  import opened Paths
  import opened CasHash
  import opened NestedTree
  import opened PathMaps
  import opened Messages

  /** What the path map remembers of a node. */
  datatype Meta = FileMeta(file: File) | LinkMeta(target: string) | DirMeta(digest: DigestKey)
  {
    /** What digests are compared by. Symlinks have none and answer with an empty one. */
    function DigestKeyOf(): DigestKey {
      match this
      case FileMeta(file) => file.digest.Key()
      case LinkMeta(_) => DigestKey("", 0)
      case DirMeta(digest) => digest
    }

    function Executable(): bool { FileMeta? && file.executable }

    function ToItem(): Item {
      match this
      case FileMeta(file) => FileItem(file)
      case LinkMeta(target) => LinkItem(target)
      case DirMeta(_) => DirItem
    }

    predicate SameKind(other: Meta) {
      (FileMeta? <==> other.FileMeta?) && (LinkMeta? <==> other.LinkMeta?)
    }

    /** The same as far as the merge can tell. */
    predicate Alike(other: Meta) {
      match this
      case FileMeta(file) =>
        other.FileMeta? && file.digest.Same(other.file.digest) && file.executable == other.file.executable
      case LinkMeta(target) => other.LinkMeta? && target == other.target
      case DirMeta(_) => other.DirMeta?
    }
  }

  /** A node met where another is entered already. A file is compared by digest
      and executable bit with whatever is there; a symlink only with a symlink;
      a directory never collides. */
  predicate Clash(existing: Meta, added: Meta) {
    match added
    case FileMeta(file) => existing.DigestKeyOf() != file.digest.Key() || existing.Executable() != file.executable
    case LinkMeta(target) => existing.LinkMeta? && existing.target != target
    case DirMeta(_) => false
  }

  type PathMap = map<string, Meta>
  datatype Entry = Entry(path: seq<string>, meta: Meta)

  function Key(e: Entry): string {
    if e.path == [] then "" else Join(e.path)
  }

  function Emplace(m: PathMap, e: Entry): Option<PathMap> {
    if Key(e) !in m then Some(m[Key(e) := e.meta])
    else if Clash(m[Key(e)], e.meta) then None
    else Some(m)
  }

  /** Entering a list of entries one by one; a collision ends it. */
  function Fold(m: PathMap, entries: seq<Entry>): Option<PathMap> {
    if entries == [] then Some(m)
    else
      var r := Fold(m, entries[..|entries| - 1]);
      if r.None? then None else Emplace(r.value, entries[|entries| - 1])
  }

  lemma {:induction false} FoldAppend(m: PathMap, a: seq<Entry>, b: seq<Entry>)
    ensures Fold(m, a + b) == (var r := Fold(m, a); if r.None? then None else Fold(r.value, b))
    decreases |b|
  {
    if b == [] {
      assert a + b == a;
    } else {
      var n := |b| - 1;
      assert (a + b)[..|a + b| - 1] == a + b[..n];
      FoldAppend(m, a, b[..n]);
    }
  }

  /** Entries with the same key say the same. */
  ghost predicate Consistent(entries: seq<Entry>) {
    forall a, b :: a in entries && b in entries && Key(a) == Key(b) ==> a.meta == b.meta
  }

  ghost predicate Collides(m: PathMap, entries: seq<Entry>) {
    exists e :: e in entries && Key(e) in m && Clash(m[Key(e)], e.meta)
  }

  /** The map keeps what it had and gains every new path. */
  ghost predicate Entered(m: PathMap, entries: seq<Entry>, r: PathMap) {
    && (forall x :: x in r <==> x in m || exists e :: e in entries && Key(e) == x)
    && (forall x :: x in m ==> r[x] == m[x])
    && (forall e :: e in entries && Key(e) !in m ==> r[Key(e)] == e.meta)
  }

  lemma {:induction false} FoldMeaning(m: PathMap, entries: seq<Entry>)
    requires Consistent(entries)
    ensures Fold(m, entries).None? <==> Collides(m, entries)
    ensures Fold(m, entries).Some? ==> Entered(m, entries, Fold(m, entries).value)
    decreases |entries|
  {
    if entries != [] {
      var n := |entries| - 1;
      var init, e := entries[..n], entries[n];
      assert entries == init + [e];
      FoldMeaning(m, init);
      if Fold(m, init).Some? { FoldStep(m, init, e, Fold(m, init).value); }
      assert Collides(m, init) ==> Collides(m, entries) by {
        if Collides(m, init) {
          var c :| c in init && Key(c) in m && Clash(m[Key(c)], c.meta);
          assert c in entries;
        }
      }
    }
  }

  lemma FoldStep(m: PathMap, init: seq<Entry>, e: Entry, r: PathMap)
    requires Consistent(init + [e]) && Entered(m, init, r) && !Collides(m, init)
    ensures Emplace(r, e).None? <==> Collides(m, init + [e])
    ensures Emplace(r, e).Some? ==> Entered(m, init + [e], Emplace(r, e).value)
  {
    hide Clash, Key;
    var all := init + [e];
    assert forall x :: x in all <==> x in init || x == e;
    NoSelfClash(e.meta);
    if Key(e) in r && Key(e) !in m {
      var f :| f in init && Key(f) == Key(e);
      assert f in all && f.meta == e.meta;
    }
    if Key(e) in m && Clash(m[Key(e)], e.meta) { assert Collides(m, all); }
  }

  lemma NoSelfClash(a: Meta)
    ensures !Clash(a, a)
  {
  }

  /** A directory message with, for each of its subdirectory nodes, the tree the
      store holds under the node's digest, if it holds one. */
  datatype Tree = Tree(dir: Directory, kids: seq<Option<Tree>>)

  /** The tree is what following digests through the store finds. A digest the
      store lacks is left unexpanded. */
  ghost predicate Unfolds(t: Tree, store: Blobs)
    decreases t
  {
    && |t.kids| == |t.dir.directories|
    && forall i :: 0 <= i < |t.kids| ==>
         var digest := t.dir.directories[i].digest;
         if digest in store then
           t.kids[i].Some? && t.kids[i].value.dir == store[digest] && Unfolds(t.kids[i].value, store)
         else t.kids[i].None?
  }

  /** One tree per node, all the way down. */
  predicate Shaped(t: Tree)
    decreases t
  {
    && |t.kids| == |t.dir.directories|
    && forall i :: 0 <= i < |t.kids| && t.kids[i].Some? ==> Shaped(t.kids[i].value)
  }

  /** Following digests ends: some rank falls from every stored directory to
      the stored directories it names. */
  ghost predicate Ranked(store: Blobs, rank: DigestKey -> nat) {
    forall k, i :: k in store && 0 <= i < |store[k].directories| && store[k].directories[i].digest in store ==>
      rank(store[k].directories[i].digest) < rank(k)
  }

  ghost predicate Below(d: Directory, store: Blobs, rank: DigestKey -> nat, bound: nat) {
    forall i :: 0 <= i < |d.directories| && d.directories[i].digest in store ==> rank(d.directories[i].digest) < bound
  }

  ghost function Unfolding(d: Directory, store: Blobs, rank: DigestKey -> nat, bound: nat): (t: Tree)
    requires Ranked(store, rank) && Below(d, store, rank, bound)
    ensures t.dir == d && Unfolds(t, store)
    decreases bound
  {
    Tree(d, seq(|d.directories|, i requires 0 <= i < |d.directories| =>
      var digest := d.directories[i].digest;
      if digest in store then Some(Unfolding(store[digest], store, rank, rank(digest))) else None))
  }

  /** A directory unfolds in one way only. */
  lemma {:induction false} UnfoldingUnique(a: Tree, b: Tree, store: Blobs)
    requires Unfolds(a, store) && Unfolds(b, store) && a.dir == b.dir
    ensures a == b
    decreases a
  {
    forall i | 0 <= i < |a.kids|
      ensures a.kids[i] == b.kids[i]
    {
      if a.kids[i].Some? { UnfoldingUnique(a.kids[i].value, b.kids[i].value, store); }
    }
  }

  function FileEntries(nodes: seq<FileNode>, pre: seq<string>): seq<Entry> {
    seq(|nodes|, i requires 0 <= i < |nodes| => Entry(pre + [nodes[i].name], FileMeta(nodes[i].file)))
  }

  function LinkEntries(nodes: seq<SymlinkNode>, pre: seq<string>): seq<Entry> {
    seq(|nodes|, i requires 0 <= i < |nodes| => Entry(pre + [nodes[i].name], LinkMeta(nodes[i].target)))
  }

  /** Files, then symlinks, then every subdirectory followed by what is in it. */
  function Flat(t: Tree, pre: seq<string>): seq<Entry>
    requires Shaped(t)
    decreases t, |t.kids| + 1
  {
    FileEntries(t.dir.files, pre) + LinkEntries(t.dir.symlinks, pre) + SubEntries(t, pre, |t.kids|)
  }

  /** The first `n` subdirectories. */
  function SubEntries(t: Tree, pre: seq<string>, n: nat): seq<Entry>
    requires Shaped(t) && n <= |t.kids|
    decreases t, n
  {
    if n == 0 then []
    else SubEntries(t, pre, n - 1) + SubdirEntries(t, pre, n - 1)
  }

  function SubdirEntries(t: Tree, pre: seq<string>, i: nat): seq<Entry>
    requires Shaped(t) && i < |t.kids|
    decreases t, i
  {
    var node := t.dir.directories[i];
    [Entry(pre + [node.name], DirMeta(node.digest))]
    + (if t.kids[i].Some? then Flat(t.kids[i].value, pre + [node.name]) else [])
  }

  /** All names of one directory, in message order. */
  function NodeNames(d: Directory): seq<string> {
    seq(|d.files|, i requires 0 <= i < |d.files| => d.files[i].name)
    + seq(|d.symlinks|, i requires 0 <= i < |d.symlinks| => d.symlinks[i].name)
    + seq(|d.directories|, i requires 0 <= i < |d.directories| => d.directories[i].name)
  }

  /** Every name is a single path segment and no two nodes of a directory share
      one, as the protocol requires of a Directory. */
  predicate TidyDirectory(d: Directory) {
    var names := NodeNames(d);
    && (forall i :: 0 <= i < |names| ==> names[i] != "" && NoSlash(names[i]))
    && (forall i, j :: 0 <= i < j < |names| ==> names[i] != names[j])
  }

  predicate Tidy(t: Tree)
    decreases t
  {
    TidyDirectory(t.dir) && forall i :: 0 <= i < |t.kids| && t.kids[i].Some? ==> Tidy(t.kids[i].value)
  }

  /** Which node of the directory an entry comes from. */
  ghost predicate FromFile(t: Tree, pre: seq<string>, e: Entry, i: nat) {
    i < |t.dir.files| && e == Entry(pre + [t.dir.files[i].name], FileMeta(t.dir.files[i].file))
  }

  ghost predicate FromLink(t: Tree, pre: seq<string>, e: Entry, i: nat) {
    i < |t.dir.symlinks| && e == Entry(pre + [t.dir.symlinks[i].name], LinkMeta(t.dir.symlinks[i].target))
  }

  ghost predicate FromSubdir(t: Tree, pre: seq<string>, e: Entry, i: nat)
    requires Shaped(t)
  {
    && i < |t.kids|
    && var node := t.dir.directories[i];
       || e == Entry(pre + [node.name], DirMeta(node.digest))
       || (t.kids[i].Some? && e in Flat(t.kids[i].value, pre + [node.name]))
  }

  lemma {:induction false} SubEntriesMembers(t: Tree, pre: seq<string>, n: nat, e: Entry)
    requires Shaped(t) && n <= |t.kids|
    ensures e in SubEntries(t, pre, n) <==> exists i: nat :: i < n && FromSubdir(t, pre, e, i)
    decreases n
  {
    hide FromSubdir, SubdirEntries;
    if n > 0 {
      SubEntriesMembers(t, pre, n - 1, e);
      SubdirMembers(t, pre, n - 1, e);
    }
  }

  lemma SubdirMembers(t: Tree, pre: seq<string>, i: nat, e: Entry)
    requires Shaped(t) && i < |t.kids|
    ensures e in SubdirEntries(t, pre, i) <==> FromSubdir(t, pre, e, i)
  {
    hide Flat;
    var node := t.dir.directories[i];
    var below := if t.kids[i].Some? then Flat(t.kids[i].value, pre + [node.name]) else [];
    assert SubdirEntries(t, pre, i) == [Entry(pre + [node.name], DirMeta(node.digest))] + below;
  }

  lemma FlatMembers(t: Tree, pre: seq<string>, e: Entry)
    requires Shaped(t)
    ensures e in Flat(t, pre) <==>
            || (exists i: nat :: FromFile(t, pre, e, i))
            || (exists i: nat :: FromLink(t, pre, e, i))
            || (exists i: nat :: FromSubdir(t, pre, e, i))
  {
    hide SubEntries, FromSubdir;
    SubEntriesMembers(t, pre, |t.kids|, e);
    FileMembers(t, pre, e);
    LinkMembers(t, pre, e);
    SubdirRange(t, pre, e);
  }

  lemma SubdirRange(t: Tree, pre: seq<string>, e: Entry)
    requires Shaped(t)
    ensures forall i: nat :: FromSubdir(t, pre, e, i) ==> i < |t.kids|
  {
  }

  lemma FileMembers(t: Tree, pre: seq<string>, e: Entry)
    ensures e in FileEntries(t.dir.files, pre) <==> exists i: nat :: FromFile(t, pre, e, i)
  {
    var es := FileEntries(t.dir.files, pre);
    forall i: nat | FromFile(t, pre, e, i)
      ensures e in es
    {
      assert es[i] == e;
    }
    if e in es {
      var i :| 0 <= i < |es| && es[i] == e;
      assert FromFile(t, pre, e, i);
    }
  }

  lemma LinkMembers(t: Tree, pre: seq<string>, e: Entry)
    ensures e in LinkEntries(t.dir.symlinks, pre) <==> exists i: nat :: FromLink(t, pre, e, i)
  {
    var es := LinkEntries(t.dir.symlinks, pre);
    forall i: nat | FromLink(t, pre, e, i)
      ensures e in es
    {
      assert es[i] == e;
    }
    if e in es {
      var i :| 0 <= i < |es| && es[i] == e;
      assert FromLink(t, pre, e, i);
    }
  }

  /** Where a node stands among the names of its directory. */
  ghost predicate AtNode(t: Tree, pre: seq<string>, e: Entry, pos: nat)
    requires Shaped(t)
  {
    var f, l := |t.dir.files|, |t.dir.symlinks|;
    || (pos < f && FromFile(t, pre, e, pos))
    || (f <= pos < f + l && FromLink(t, pre, e, pos - f))
    || (f + l <= pos && FromSubdir(t, pre, e, pos - f - l))
  }

  lemma NodeOf(t: Tree, pre: seq<string>, e: Entry) returns (pos: nat)
    requires Shaped(t) && e in Flat(t, pre)
    ensures AtNode(t, pre, e, pos)
  {
    hide FromFile, FromLink, FromSubdir, Flat;
    FlatMembers(t, pre, e);
    var f, l := |t.dir.files|, |t.dir.symlinks|;
    FileRange(t, pre, e);
    if i: nat :| FromFile(t, pre, e, i) {
      pos := i;
    } else if i: nat :| FromLink(t, pre, e, i) {
      pos := f + i;
      assert pos - f == i;
    } else {
      var i: nat :| FromSubdir(t, pre, e, i);
      pos := f + l + i;
      assert pos - f - l == i;
    }
  }

  lemma FileRange(t: Tree, pre: seq<string>, e: Entry)
    ensures forall i: nat :: FromFile(t, pre, e, i) ==> i < |t.dir.files|
    ensures forall i: nat :: FromLink(t, pre, e, i) ==> i < |t.dir.symlinks|
  {
  }

  /** The path of an entry extends the prefix, first of all by its node's name. */
  lemma {:induction false} EntryPath(t: Tree, pre: seq<string>, e: Entry, pos: nat)
    requires Shaped(t) && AtNode(t, pre, e, pos)
    ensures pos < |NodeNames(t.dir)|
    ensures |e.path| > |pre| && e.path[..|pre|] == pre && e.path[|pre|] == NodeNames(t.dir)[pos]
    decreases t
  {
    var f, l := |t.dir.files|, |t.dir.symlinks|;
    if pos >= f + l {
      var i := pos - f - l;
      var node := t.dir.directories[i];
      var below := pre + [node.name];
      if t.kids[i].Some? && e in Flat(t.kids[i].value, below) {
        var p := NodeOf(t.kids[i].value, below, e);
        EntryPath(t.kids[i].value, below, e, p);
        BelowPrefix(e.path, pre, node.name);
      }
    }
  }

  lemma BelowPrefix(path: seq<string>, pre: seq<string>, name: string)
    requires |path| > |pre| && path[..|pre| + 1] == pre + [name]
    ensures path[..|pre|] == pre && path[|pre|] == name
  {
    assert path[..|pre|] == path[..|pre| + 1][..|pre|];
    assert path[|pre|] == path[..|pre| + 1][|pre|];
  }

  /** All paths of a tidy tree are made of proper names. */
  lemma {:induction false} EntryNames(t: Tree, pre: seq<string>, e: Entry)
    requires Shaped(t) && Tidy(t) && e in Flat(t, pre) && (pre == [] || NodePath(pre))
    ensures NodePath(e.path)
    decreases t
  {
    hide Flat;
    var pos := NodeOf(t, pre, e);
    EntryPath(t, pre, e, pos);
    var f, l := |t.dir.files|, |t.dir.symlinks|;
    var below := pre + [NodeNames(t.dir)[pos]];
    assert NodePath(below);
    if pos >= f + l {
      var i := pos - f - l;
      assert t.dir.directories[i].name == NodeNames(t.dir)[pos];
      if t.kids[i].Some? && e in Flat(t.kids[i].value, below) { EntryNames(t.kids[i].value, below, e); }
    }
  }

  /** In a tidy tree a path names one node. */
  lemma {:induction false} OneNodePerPath(t: Tree, pre: seq<string>, a: Entry, b: Entry)
    requires Shaped(t) && Tidy(t) && a in Flat(t, pre) && b in Flat(t, pre) && a.path == b.path
    ensures a.meta == b.meta
    decreases t
  {
    hide Flat;
    var p := NodeOf(t, pre, a);
    var q := NodeOf(t, pre, b);
    EntryPath(t, pre, a, p);
    EntryPath(t, pre, b, q);
    SamePosition(t.dir, p, q);
    var f, l := |t.dir.files|, |t.dir.symlinks|;
    if p >= f + l {
      var i := p - f - l;
      var below := pre + [t.dir.directories[i].name];
      if t.kids[i].Some? {
        LongerBelow(t.kids[i].value, below, a);
        LongerBelow(t.kids[i].value, below, b);
        if a in Flat(t.kids[i].value, below) && b in Flat(t.kids[i].value, below) {
          OneNodePerPath(t.kids[i].value, below, a, b);
        }
      }
    }
  }

  lemma LongerBelow(t: Tree, pre: seq<string>, e: Entry)
    requires Shaped(t)
    ensures e in Flat(t, pre) ==> |e.path| > |pre|
  {
    if e in Flat(t, pre) {
      var pos := NodeOf(t, pre, e);
      EntryPath(t, pre, e, pos);
    }
  }

  lemma SamePosition(d: Directory, p: nat, q: nat)
    requires TidyDirectory(d) && p < |NodeNames(d)| && q < |NodeNames(d)| && NodeNames(d)[p] == NodeNames(d)[q]
    ensures p == q
  {
  }

  /** The entries of a tidy tree agree wherever their keys do. */
  lemma FlatConsistent(t: Tree)
    requires Shaped(t) && Tidy(t)
    ensures Consistent(Flat(t, []))
    ensures forall e :: e in Flat(t, []) ==> NodePath(e.path)
  {
    hide Flat, NodePath, Tidy, Shaped;
    forall e | e in Flat(t, [])
      ensures NodePath(e.path)
    {
      EntryNames(t, [], e);
    }
    forall a, b | a in Flat(t, []) && b in Flat(t, []) && Key(a) == Key(b)
      ensures a.meta == b.meta
    {
      SameKeySamePath(a, b);
      OneNodePerPath(t, [], a, b);
    }
  }

  lemma SameKeySamePath(a: Entry, b: Entry)
    requires NodePath(a.path) && NodePath(b.path) && Key(a) == Key(b)
    ensures a.path == b.path
  {
    NodePathText(a.path);
    NodePathText(b.path);
  }

  /** Every ancestor of an entry is entered as a directory. */
  lemma {:induction false} AncestorsListed(t: Tree, pre: seq<string>, e: Entry, q: seq<string>)
    requires Shaped(t) && e in Flat(t, pre) && |pre| < |q| < |e.path| && q <= e.path
    ensures exists d :: d in Flat(t, pre) && d.path == q && d.meta.DirMeta?
    decreases t
  {
    hide Flat;
    var pos := NodeOf(t, pre, e);
    EntryPath(t, pre, e, pos);
    var f, l := |t.dir.files|, |t.dir.symlinks|;
    var i := pos - f - l;
    var node := t.dir.directories[i];
    var below := pre + [node.name];
    var here := Entry(below, DirMeta(node.digest));
    assert t.kids[i].Some? && e in Flat(t.kids[i].value, below);
    if |q| == |below| {
      assert FromSubdir(t, pre, here, i);
      FlatMembers(t, pre, here);
      assert q == e.path[..|below|] && below == e.path[..|below|];
    } else {
      AncestorsListed(t.kids[i].value, below, e, q);
      var d :| d in Flat(t.kids[i].value, below) && d.path == q && d.meta.DirMeta?;
      assert FromSubdir(t, pre, d, i);
      FlatMembers(t, pre, d);
    }
  }
}
