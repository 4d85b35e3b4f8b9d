/** The protocol's Directory messages, their digests, and the blobs that a
    tree is stored as. Serialization followed by hashing is one parameter `g`;
    parsing a serialized message gives the message back. */
module Messages {
  import opened CasHash
  import opened StringOrder
  import opened NestedTree

  datatype FileNode = FileNode(name: string, file: File)
  datatype SymlinkNode = SymlinkNode(name: string, target: string)
  datatype DirectoryNode = DirectoryNode(name: string, digest: DigestKey)
  datatype Directory = Directory(files: seq<FileNode>, symlinks: seq<SymlinkNode>, directories: seq<DirectoryNode>)

  type Digester = Directory -> DigestKey
  type Blobs = map<DigestKey, Directory>

  function FileNodes(m: map<string, File>): seq<FileNode> {
    var keys := SortedKeys(m.Keys);
    seq(|keys|, i requires 0 <= i < |keys| => assert keys[i] in keys; FileNode(keys[i], m[keys[i]]))
  }

  function SymlinkNodes(m: map<string, string>): seq<SymlinkNode> {
    var keys := SortedKeys(m.Keys);
    seq(|keys|, i requires 0 <= i < |keys| => assert keys[i] in keys; SymlinkNode(keys[i], m[keys[i]]))
  }

  /** Directory nodes for these subdirectories, in this order. */
  function DirectoryNodes(g: Digester, nd: Nested, keys: seq<string>): (nodes: seq<DirectoryNode>)
    requires forall i :: 0 <= i < |keys| ==> keys[i] in nd.subdirs
    ensures |nodes| == |keys|
    ensures forall i :: 0 <= i < |keys| ==> nodes[i].name == keys[i]
    decreases nd, |keys|
  {
    if keys == [] then []
    else
      var n := |keys| - 1;
      DirectoryNodes(g, nd, keys[..n]) + [DirectoryNode(keys[n], ToDigest(g, nd.subdirs[keys[n]]))]
  }

  function SubdirKeys(nd: Nested): (keys: seq<string>)
    ensures |keys| == |nd.subdirs.Keys| && Sorted(keys)
    ensures forall x :: x in keys <==> x in nd.subdirs
    ensures forall i :: 0 <= i < |keys| ==> keys[i] in nd.subdirs
  {
    var keys := SortedKeys(nd.subdirs.Keys);
    assert forall i :: 0 <= i < |keys| ==> keys[i] in keys;
    keys
  }

  /** The message of one directory: everything sorted by name, subdirectories by digest. */
  function ToDirectory(g: Digester, nd: Nested): Directory
    decreases nd, |nd.subdirs.Keys| + 1
  {
    Directory(FileNodes(nd.files), SymlinkNodes(nd.symlinks), DirectoryNodes(g, nd, SubdirKeys(nd)))
  }

  function ToDigest(g: Digester, nd: Nested): DigestKey
    decreases nd, |nd.subdirs.Keys| + 2
  {
    g(ToDirectory(g, nd))
  }

  /** Storing the messages of a directory and everything below it. */
  function StoreBlobs(g: Digester, nd: Nested, m: Blobs): Blobs
    decreases nd, |nd.subdirs.Keys| + 1
  {
    StoreChildren(g, nd, SubdirKeys(nd), m)[ToDigest(g, nd) := ToDirectory(g, nd)]
  }

  function StoreChildren(g: Digester, nd: Nested, keys: seq<string>, m: Blobs): Blobs
    requires forall i :: 0 <= i < |keys| ==> keys[i] in nd.subdirs
    decreases nd, |keys|
  {
    if keys == [] then m
    else
      var n := |keys| - 1;
      StoreBlobs(g, nd.subdirs[keys[n]], StoreChildren(g, nd, keys[..n], m))
  }

  /** The Tree message: the root and, in order, everything below it. */
  datatype TreeMessage = TreeMessage(root: Directory, children: seq<Directory>)

  function ToTree(g: Digester, nd: Nested): TreeMessage
    decreases nd, |nd.subdirs.Keys| + 1
  {
    var keys := SubdirKeys(nd);
    var below := TreeChildren(g, nd, keys);
    TreeMessage(Directory(FileNodes(nd.files), SymlinkNodes(nd.symlinks), TreeNodes(g, nd, keys)), below)
  }

  /** For each subdirectory its own children, then its root. */
  function TreeChildren(g: Digester, nd: Nested, keys: seq<string>): seq<Directory>
    requires forall i :: 0 <= i < |keys| ==> keys[i] in nd.subdirs
    decreases nd, |keys|
  {
    if keys == [] then []
    else
      var n := |keys| - 1;
      var sub := ToTree(g, nd.subdirs[keys[n]]);
      TreeChildren(g, nd, keys[..n]) + sub.children + [sub.root]
  }

  /** Subdirectory nodes of a Tree root carry the digest of the subtree's root message. */
  function TreeNodes(g: Digester, nd: Nested, keys: seq<string>): seq<DirectoryNode>
    requires forall i :: 0 <= i < |keys| ==> keys[i] in nd.subdirs
    decreases nd, |keys|
  {
    if keys == [] then []
    else
      var n := |keys| - 1;
      TreeNodes(g, nd, keys[..n]) + [DirectoryNode(keys[n], g(ToTree(g, nd.subdirs[keys[n]]).root))]
  }

  /** The root of the Tree message is the directory message, so their digests agree. */
  lemma {:induction false} TreeRootAgrees(g: Digester, nd: Nested)
    ensures ToTree(g, nd).root == ToDirectory(g, nd)
    ensures g(ToTree(g, nd).root) == ToDigest(g, nd)
    decreases nd, |nd.subdirs.Keys| + 1
  {
    TreeNodesAgree(g, nd, SubdirKeys(nd));
  }

  lemma {:induction false} TreeNodesAgree(g: Digester, nd: Nested, keys: seq<string>)
    requires forall i :: 0 <= i < |keys| ==> keys[i] in nd.subdirs
    ensures TreeNodes(g, nd, keys) == DirectoryNodes(g, nd, keys)
    decreases nd, |keys|
  {
    if keys != [] {
      TreeNodesAgree(g, nd, keys[..|keys| - 1]);
      TreeRootAgrees(g, nd.subdirs[keys[|keys| - 1]]);
    }
  }

  /** Digests of a list of messages. */
  ghost function DigestsOf(g: Digester, dirs: seq<Directory>): set<DigestKey> {
    set d | d in dirs :: g(d)
  }

  /** The stored keys are exactly the digests of the Tree's root and children. */
  lemma {:induction false} StoredKeys(g: Digester, nd: Nested, m: Blobs)
    ensures StoreBlobs(g, nd, m).Keys == m.Keys + DigestsOf(g, ToTree(g, nd).children) + {g(ToTree(g, nd).root)}
    decreases nd, |nd.subdirs.Keys| + 1
  {
    hide DigestsOf, SubdirKeys;
    TreeRootAgrees(g, nd);
    StoredChildKeys(g, nd, SubdirKeys(nd), m);
  }

  lemma {:induction false} StoredChildKeys(g: Digester, nd: Nested, keys: seq<string>, m: Blobs)
    requires forall i :: 0 <= i < |keys| ==> keys[i] in nd.subdirs
    ensures StoreChildren(g, nd, keys, m).Keys == m.Keys + DigestsOf(g, TreeChildren(g, nd, keys))
    decreases nd, |keys|
  {
    hide DigestsOf, ToTree, StoreBlobs, ToDirectory;
    if keys != [] {
      var n := |keys| - 1;
      StoredChildKeys(g, nd, keys[..n], m);
      StoredKeys(g, nd.subdirs[keys[n]], StoreChildren(g, nd, keys[..n], m));
      var sub := ToTree(g, nd.subdirs[keys[n]]);
      DigestsConcat(g, TreeChildren(g, nd, keys[..n]), sub.children, sub.root);
    } else {
      NoDigests(g);
    }
  }

  lemma NoDigests(g: Digester)
    ensures DigestsOf(g, []) == {}
  {
  }

  lemma DigestsConcat(g: Digester, a: seq<Directory>, b: seq<Directory>, d: Directory)
    ensures DigestsOf(g, a + b + [d]) == DigestsOf(g, a) + DigestsOf(g, b) + {g(d)}
  {
    assert forall x :: x in a + b + [d] <==> x in a || x in b || x == d;
  }

  /** Every blob is stored under its own digest, and every subdirectory a blob
      names is stored too. */
  ghost predicate Closed(g: Digester, m: Blobs) {
    && (forall k :: k in m ==> g(m[k]) == k)
    && (forall k, i :: k in m && 0 <= i < |m[k].directories| ==> m[k].directories[i].digest in m)
  }

  predicate AllStored(nodes: seq<DirectoryNode>, m: Blobs) {
    forall i :: 0 <= i < |nodes| ==> nodes[i].digest in m
  }

  lemma ClosedAdd(g: Digester, m: Blobs, d: Directory)
    requires Closed(g, m) && AllStored(d.directories, m)
    ensures Closed(g, m[g(d) := d])
  {
  }

  /** Storing a tree keeps a closed map closed. */
  lemma {:induction false} StoreKeepsClosed(g: Digester, nd: Nested, m: Blobs)
    requires Closed(g, m)
    ensures Closed(g, StoreBlobs(g, nd, m)) && m.Keys <= StoreBlobs(g, nd, m).Keys
    ensures ToDigest(g, nd) in StoreBlobs(g, nd, m)
    decreases nd, |nd.subdirs.Keys| + 1
  {
    hide Closed, StoreChildren, FileNodes, SymlinkNodes, DirectoryNodes;
    StoreChildrenClosed(g, nd, SubdirKeys(nd), m);
    ClosedAdd(g, StoreChildren(g, nd, SubdirKeys(nd), m), ToDirectory(g, nd));
  }

  lemma {:induction false} StoreChildrenClosed(g: Digester, nd: Nested, keys: seq<string>, m: Blobs)
    requires Closed(g, m) && forall i :: 0 <= i < |keys| ==> keys[i] in nd.subdirs
    ensures var r := StoreChildren(g, nd, keys, m);
            Closed(g, r) && m.Keys <= r.Keys && AllStored(DirectoryNodes(g, nd, keys), r)
    decreases nd, |keys|
  {
    hide Closed, StoreBlobs, ToDigest, ToDirectory;
    if keys != [] {
      var n := |keys| - 1;
      StoreChildrenClosed(g, nd, keys[..n], m);
      StoreKeepsClosed(g, nd.subdirs[keys[n]], StoreChildren(g, nd, keys[..n], m));
    }
  }
}
