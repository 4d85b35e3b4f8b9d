/** Directory trees: building them path by path, looking things up in them,
    and turning them into the messages of the protocol. */
module NestedTree {
  import opened Paths
  import opened CasHash

  datatype Option<+T> = None | Some(value: T)

  /** A file by the digest of its contents. */
  datatype File = File(digest: Digest, executable: bool)

  /** The value of a NestedDirectory: three maps, one per kind of entry. */
  datatype Nested = Nested(files: map<string, File>, symlinks: map<string, string>, subdirs: map<string, Nested>)

  const EMPTY: Nested := Nested(map[], map[], map[])

  /** What a path can be added as. */
  datatype Item = FileItem(file: File) | LinkItem(target: string) | DirItem

  function Child(nd: Nested, name: string): Nested {
    if name in nd.subdirs then nd.subdirs[name] else EMPTY
  }

  function PutHere(nd: Nested, item: Item, name: string): Nested {
    match item
    case FileItem(file) => nd.(files := nd.files[name := file])
    case LinkItem(target) => nd.(symlinks := nd.symlinks[name := target])
    case DirItem => if name in nd.subdirs then nd else nd.(subdirs := nd.subdirs[name := EMPTY])
  }

  /** Adds an item at a path given as text, cutting it at the slashes; empty
      leading segments are skipped, and a lone slash names no directory. */
  function Add(nd: Nested, item: Item, path: string): Nested
    decreases |path|
  {
    if item.DirItem? && path == "/" then nd
    else
      var slash := FindSlash(path);
      if slash == |path| then PutHere(nd, item, path)
      else
        var key := path[..slash];
        if key == "" then Add(nd, item, path[slash + 1..])
        else nd.(subdirs := nd.subdirs[key := Add(Child(nd, key), item, path[slash + 1..])])
  }

  /** The same over a list of names. */
  function Put(nd: Nested, item: Item, path: seq<string>): Nested
    requires path != []
    decreases |path|
  {
    if |path| == 1 then PutHere(nd, item, path[0])
    else nd.(subdirs := nd.subdirs[path[0] := Put(Child(nd, path[0]), item, path[1..])])
  }

  /** Names that survive being joined with slashes and cut apart again. */
  predicate NodePath(path: seq<string>) {
    path != [] && forall i :: 0 <= i < |path| ==> path[i] != "" && NoSlash(path[i])
  }

  lemma SlashIsSlash()
    ensures !NoSlash("/")
  {
    assert "/"[0] in "/";
  }

  lemma {:induction false} AddIsPut(nd: Nested, item: Item, path: seq<string>)
    requires NodePath(path)
    ensures Add(nd, item, Join(path)) == Put(nd, item, path)
    decreases |path|
  {
    var text := Join(path);
    if |path| == 1 {
      assert text[..|text|] == text;
      FindSlashIs(text, |text|);
      SlashIsSlash();
    } else {
      var n := |path[0]|;
      assert text[..n] == path[0] && text[n + 1..] == Join(path[1..]);
      FindSlashIs(text, n);
      AddIsPut(Child(nd, path[0]), item, path[1..]);
    }
  }

  /** A leading slash is skipped; alone it names no directory, and for anything
      else an entry with an empty name. */
  lemma AddLeadingSlash(nd: Nested, item: Item, path: string)
    ensures Add(nd, item, "/" + path) == if item.DirItem? && path == "" then nd else Add(nd, item, path)
    ensures Add(nd, item, "") == PutHere(nd, item, "")
  {
    var text := "/" + path;
    assert text[..0] == "" && text[1..] == path;
    FindSlashIs(text, 0);
    FindSlashIs("", 0);
    assert ""[..0] == "";
  }

  function NonEmpty(segs: seq<string>): seq<string> {
    if segs == [] then [] else (if segs[0] == "" then [] else [segs[0]]) + NonEmpty(segs[1..])
  }

  /** Any path that does not end in a slash goes by its non-empty segments, however
      many slashes stand before and between them. */
  lemma {:induction false} AddText(nd: Nested, item: Item, text: string)
    requires Split(text)[|Split(text)| - 1] != ""
    ensures NonEmpty(Split(text)) != [] && Add(nd, item, text) == Put(nd, item, NonEmpty(Split(text)))
    decreases |text|
  {
    var i := FindSlash(text);
    if i == |text| {
      OneSegment(text);
    } else {
      var key, rest := text[..i], text[i + 1..];
      var segs := Split(rest);
      assert Split(text) == [key] + segs;
      assert Split(text)[|Split(text)| - 1] == segs[|segs| - 1];
      NonEmptyFirst(key, segs);
      if text == "/" { OneSegment(rest); }
      AddText(if key == "" then nd else Child(nd, key), item, rest);
      assert [] + NonEmpty(segs) == NonEmpty(segs);
      if key != "" { PutUnder(nd, item, key, NonEmpty(segs)); }
    }
  }

  lemma OneSegment(text: string)
    requires NoSlash(text)
    ensures Split(text) == [text] && NonEmpty([text]) == if text == "" then [] else [text]
  {
    SplitOne(text);
    assert [text][1..] == [];
  }

  lemma NonEmptyFirst(first: string, rest: seq<string>)
    ensures NonEmpty([first] + rest) == (if first == "" then [] else [first]) + NonEmpty(rest)
  {
    assert ([first] + rest)[1..] == rest;
  }

  lemma PutUnder(nd: Nested, item: Item, key: string, names: seq<string>)
    requires names != []
    ensures Put(nd, item, [key] + names) == nd.(subdirs := nd.subdirs[key := Put(Child(nd, key), item, names)])
  {
    assert ([key] + names)[1..] == names;
  }

  /** A slash at the end names an entry with an empty name. */
  lemma {:induction false} AddTrailingSlash(nd: Nested, item: Item, path: seq<string>)
    requires NodePath(path)
    ensures Add(nd, item, Join(path) + "/") == Put(nd, item, path + [""])
    decreases |path|
  {
    var text, n := Join(path) + "/", |path[0]|;
    assert text[..n] == path[0] && text[n] == '/';
    FindSlashIs(text, n);
    PutUnder(nd, item, path[0], path[1..] + [""]);
    assert path + [""] == [path[0]] + (path[1..] + [""]);
    if |path| == 1 {
      assert text[n + 1..] == "" && path[1..] + [""] == [""];
      AddLeadingSlash(Child(nd, path[0]), item, "");
    } else {
      assert text[n + 1..] == Join(path[1..]) + "/";
      AddTrailingSlash(Child(nd, path[0]), item, path[1..]);
    }
  }

  function FileAt(nd: Nested, path: seq<string>): Option<File>
    decreases |path|
  {
    if path == [] then None
    else if |path| == 1 then (if path[0] in nd.files then Some(nd.files[path[0]]) else None)
    else if path[0] in nd.subdirs then FileAt(nd.subdirs[path[0]], path[1..]) else None
  }

  function LinkAt(nd: Nested, path: seq<string>): Option<string>
    decreases |path|
  {
    if path == [] then None
    else if |path| == 1 then (if path[0] in nd.symlinks then Some(nd.symlinks[path[0]]) else None)
    else if path[0] in nd.subdirs then LinkAt(nd.subdirs[path[0]], path[1..]) else None
  }

  predicate HasDir(nd: Nested, path: seq<string>)
    decreases |path|
  {
    path != [] && path[0] in nd.subdirs && (|path| == 1 || HasDir(nd.subdirs[path[0]], path[1..]))
  }

  /** `p` is a proper ancestor of `q`. */
  predicate Above(p: seq<string>, q: seq<string>) {
    p != [] && p <= q && p != q
  }

  lemma {:induction false} EmptyHasNothing(path: seq<string>)
    ensures FileAt(EMPTY, path) == None && LinkAt(EMPTY, path) == None && !HasDir(EMPTY, path)
  {
  }

  /** Adding an item puts it at its path, makes its ancestors directories, and changes nothing else. */
  lemma {:induction false} PutLookup(nd: Nested, item: Item, p: seq<string>, q: seq<string>)
    requires p != []
    ensures FileAt(Put(nd, item, p), q) == if item.FileItem? && q == p then Some(item.file) else FileAt(nd, q)
    ensures LinkAt(Put(nd, item, p), q) == if item.LinkItem? && q == p then Some(item.target) else LinkAt(nd, q)
    ensures HasDir(Put(nd, item, p), q) <==> HasDir(nd, q) || (item.DirItem? && q == p) || Above(q, p)
    decreases |p|
  {
    if q != [] {
      if |p| == 1 {
        PutHereLookup(nd, item, p[0], q);
        assert p == [p[0]];
      } else if p[0] == q[0] && |q| > 1 {
        hide Above;
        var child := Child(nd, p[0]);
        PutLookup(child, item, p[1..], q[1..]);
        EmptyHasNothing(q[1..]);
        AboveTail(q, p);
      } else {
        hide Put;
        PutBeside(nd, item, p, q);
      }
    }
  }

  lemma PutBeside(nd: Nested, item: Item, p: seq<string>, q: seq<string>)
    requires |p| > 1 && q != [] && (|q| == 1 || p[0] != q[0])
    ensures FileAt(Put(nd, item, p), q) == FileAt(nd, q) && LinkAt(Put(nd, item, p), q) == LinkAt(nd, q)
    ensures HasDir(Put(nd, item, p), q) <==> HasDir(nd, q) || Above(q, p)
    ensures p != q
  {
    assert q == [q[0]] + q[1..];
  }

  lemma AboveTail(p: seq<string>, q: seq<string>)
    requires |p| > 1 && q != [] && p[0] == q[0]
    ensures Above(p, q) <==> Above(p[1..], q[1..])
    ensures p == q <==> p[1..] == q[1..]
  {
    assert p == [p[0]] + p[1..] && q == [q[0]] + q[1..];
    if p[1..] <= q[1..] {
      assert forall i :: 0 < i < |p| ==> p[i] == p[1..][i - 1] && q[i] == q[1..][i - 1];
      assert p <= q;
    }
  }

  lemma PutHereLookup(nd: Nested, item: Item, name: string, q: seq<string>)
    requires q != []
    ensures FileAt(PutHere(nd, item, name), q)
            == if item.FileItem? && q == [name] then Some(item.file) else FileAt(nd, q)
    ensures LinkAt(PutHere(nd, item, name), q)
            == if item.LinkItem? && q == [name] then Some(item.target) else LinkAt(nd, q)
    ensures HasDir(PutHere(nd, item, name), q) <==> HasDir(nd, q) || (item.DirItem? && q == [name])
  {
    if |q| > 1 {
      EmptyHasNothing(q[1..]);
    } else {
      assert q == [q[0]];
    }
  }

  /** Two trees that answer every lookup alike. */
  ghost predicate SameLookups(a: Nested, b: Nested) {
    forall q :: FileAt(a, q) == FileAt(b, q) && LinkAt(a, q) == LinkAt(b, q) && HasDir(a, q) == HasDir(b, q)
  }

  /** A tree is determined by its lookups. */
  lemma {:induction false} Extensional(a: Nested, b: Nested)
    requires SameLookups(a, b)
    ensures a == b
    decreases a
  {
    forall name
      ensures name in a.files <==> name in b.files
      ensures name in a.files ==> a.files[name] == b.files[name]
      ensures name in a.symlinks <==> name in b.symlinks
      ensures name in a.symlinks ==> a.symlinks[name] == b.symlinks[name]
      ensures name in a.subdirs <==> name in b.subdirs
    {
      assert FileAt(a, [name]) == FileAt(b, [name]);
      assert LinkAt(a, [name]) == LinkAt(b, [name]);
      assert HasDir(a, [name]) == HasDir(b, [name]);
    }
    forall name | name in a.subdirs
      ensures a.subdirs[name] == b.subdirs[name]
    {
      SameChild(a, b, name);
      Extensional(a.subdirs[name], b.subdirs[name]);
    }
    assert a.files == b.files && a.symlinks == b.symlinks && a.subdirs == b.subdirs;
  }

  lemma SameChild(a: Nested, b: Nested, name: string)
    requires SameLookups(a, b) && name in a.subdirs && name in b.subdirs
    ensures SameLookups(a.subdirs[name], b.subdirs[name])
  {
    forall q
      ensures FileAt(a.subdirs[name], q) == FileAt(b.subdirs[name], q)
      ensures LinkAt(a.subdirs[name], q) == LinkAt(b.subdirs[name], q)
      ensures HasDir(a.subdirs[name], q) == HasDir(b.subdirs[name], q)
    {
      if q != [] {
        var r := [name] + q;
        assert r[0] == name && r[1..] == q && |r| > 1;
        assert FileAt(a, r) == FileAt(b, r) && LinkAt(a, r) == LinkAt(b, r) && HasDir(a, r) == HasDir(b, r);
      }
    }
  }
}

/** Trees built from maps of paths, in any order of insertion. */
module PathMaps {
  import opened Paths
  import opened NestedTree

  predicate ValidKeys(m: map<string, Item>) {
    forall x :: x in m ==> NodePath(Split(x))
  }

  lemma NodePathText(path: seq<string>)
    requires NodePath(path)
    ensures Split(Join(path)) == path
  {
    SplitJoin(path);
  }

  /** What a map of path texts holds at a list of names. */
  function AtPath(m: map<string, Item>, q: seq<string>): Option<Item> {
    if NodePath(q) && Join(q) in m then Some(m[Join(q)]) else None
  }

  ghost predicate ImpliedDir(m: map<string, Item>, q: seq<string>) {
    AtPath(m, q) == Some(DirItem) || exists p :: AtPath(m, p).Some? && Above(q, p)
  }

  /** The tree holds exactly what the map says, plus the ancestors of its paths. */
  ghost predicate Represents(nd: Nested, m: map<string, Item>) {
    forall q ::
      && FileAt(nd, q) == (match AtPath(m, q) case Some(FileItem(file)) => Some(file) case _ => None)
      && LinkAt(nd, q) == (match AtPath(m, q) case Some(LinkItem(target)) => Some(target) case _ => None)
      && (HasDir(nd, q) <==> ImpliedDir(m, q))
  }

  lemma RepresentsUnique(a: Nested, b: Nested, m: map<string, Item>)
    requires Represents(a, m) && Represents(b, m)
    ensures a == b
  {
    hide AtPath, ImpliedDir, FileAt, LinkAt, HasDir;
    Extensional(a, b);
  }

  lemma EmptyRepresents()
    ensures Represents(EMPTY, map[])
  {
    forall q
      ensures FileAt(EMPTY, q) == None && LinkAt(EMPTY, q) == None && !HasDir(EMPTY, q)
    {
      EmptyHasNothing(q);
    }
  }

  lemma AtPathAfter(m: map<string, Item>, x: string, item: Item, q: seq<string>)
    requires NodePath(Split(x))
    ensures AtPath(m[x := item], q) == if q == Split(x) then Some(item) else AtPath(m, q)
  {
    JoinSplit(x);
    if NodePath(q) { NodePathText(q); }
  }

  lemma ImpliedDirAfter(m: map<string, Item>, x: string, item: Item, q: seq<string>)
    requires NodePath(Split(x)) && x !in m
    ensures ImpliedDir(m[x := item], q) <==> ImpliedDir(m, q) || (item.DirItem? && q == Split(x)) || Above(q, Split(x))
  {
    hide AtPath, Above, NodePath;
    var more, at := m[x := item], Split(x);
    FreshPath(m, x);
    AtPathAfter(m, x, item, q);
    AtPathAfter(m, x, item, at);
    forall p
      ensures AtPath(more, p).Some? <==> AtPath(m, p).Some? || p == at
    {
      AtPathAfter(m, x, item, p);
    }
  }

  lemma FreshPath(m: map<string, Item>, x: string)
    requires x !in m
    ensures AtPath(m, Split(x)) == None
  {
    JoinSplit(x);
  }

  /** Adding one more path keeps the correspondence. */
  lemma RepresentsAdd(nd: Nested, m: map<string, Item>, x: string, item: Item)
    requires Represents(nd, m) && x !in m && NodePath(Split(x))
    ensures Represents(Add(nd, item, x), m[x := item])
  {
    var at := Split(x);
    JoinSplit(x);
    AddIsPut(nd, item, at);
    hide Add, Put, AtPath, ImpliedDir, FileAt, LinkAt, HasDir, Above, Split, NodePath;
    FreshPath(m, x);
    forall q
      ensures FileAt(Add(nd, item, x), q)
              == (match AtPath(m[x := item], q) case Some(FileItem(file)) => Some(file) case _ => None)
      ensures LinkAt(Add(nd, item, x), q)
              == (match AtPath(m[x := item], q) case Some(LinkItem(target)) => Some(target) case _ => None)
      ensures HasDir(Add(nd, item, x), q) <==> ImpliedDir(m[x := item], q)
    {
      PutLookup(nd, item, at, q);
      AtPathAfter(m, x, item, q);
      ImpliedDirAfter(m, x, item, q);
    }
  }

  /** Adding paths one after the other. */
  function AddAll(nd: Nested, m: map<string, Item>, order: seq<string>): Nested
    requires forall i :: 0 <= i < |order| ==> order[i] in m
  {
    if order == [] then nd else Add(AddAll(nd, m, order[..|order| - 1]), m[order[|order| - 1]], order[|order| - 1])
  }

  ghost predicate Listing(m: map<string, Item>, order: seq<string>) {
    && (forall x :: x in order <==> x in m)
    && (forall i, j :: 0 <= i < j < |order| ==> order[i] != order[j])
  }

  lemma {:induction false} AddAllRepresents(m: map<string, Item>, order: seq<string>)
    requires ValidKeys(m) && Listing(m, order)
    ensures Represents(AddAll(EMPTY, m, order), m)
    decreases |order|
  {
    if order == [] {
      assert m.Keys == {} by { assert forall x :: x in m ==> x in order; }
      assert m == map[];
      EmptyRepresents();
    } else {
      var n := |order| - 1;
      var x, init := order[n], order[..n];
      var rest := m - {x};
      RestListing(m, order);
      AddAllRepresents(rest, init);
      AddAllSame(rest, m, init);
      assert rest[x := m[x]] == m;
      RepresentsAdd(AddAll(EMPTY, rest, init), rest, x, m[x]);
    }
  }

  lemma RestListing(m: map<string, Item>, order: seq<string>)
    requires Listing(m, order) && order != []
    ensures Listing(m - {order[|order| - 1]}, order[..|order| - 1])
  {
    var n := |order| - 1;
    assert order == order[..n] + [order[n]];
    forall y | y in order[..n]
      ensures y != order[n]
    {
      var i :| 0 <= i < n && order[..n][i] == y;
    }
  }

  lemma {:induction false} AddAllSame(a: map<string, Item>, b: map<string, Item>, order: seq<string>)
    requires forall i :: 0 <= i < |order| ==> order[i] in a && order[i] in b && a[order[i]] == b[order[i]]
    ensures AddAll(EMPTY, a, order) == AddAll(EMPTY, b, order)
  {
    if order != [] { AddAllSame(a, b, order[..|order| - 1]); }
  }

  /** Building a tree from a map of paths gives the same tree in every order. */
  lemma InsertionOrderIrrelevant(m: map<string, Item>, one: seq<string>, other: seq<string>)
    requires ValidKeys(m) && Listing(m, one) && Listing(m, other)
    ensures AddAll(EMPTY, m, one) == AddAll(EMPTY, m, other)
  {
    AddAllRepresents(m, one);
    AddAllRepresents(m, other);
    RepresentsUnique(AddAll(EMPTY, m, one), AddAll(EMPTY, m, other), m);
  }
}
