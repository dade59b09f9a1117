/** No space left on device: a terminal transcript of `cd` and `ls` is
    replayed into a file tree whose directory sizes are then collected. */
module Day07 {
  import opened Common

  const MaxDirectoryTotalSize := 100000
  const TotalDiskSpace := 70000000
  const SpaceNeededForUpdate := 30000000

  /** An absolute path as its segments; `[]` is the root "/". */
  type Path = seq<string>

  /** The argument of `cd`, or the name of a listed entry. */
  datatype PathArg = Absolute(path: Path) | Up | Relative(name: string)

  /** `toAbsolutePath`: an absolute path is kept, ".." goes to the parent of
      the current directory, any other name is resolved against it. The
      root has no parent (`parent` is null there and the source fails),
      which is `None`. */
  function ToAbsolutePath(arg: PathArg, parentDir: Path): (r: Option<Path>)
    ensures arg.Absolute? ==> r == Some(arg.path)
    ensures arg.Up? ==> (r.Some? <==> parentDir != [])
    ensures arg.Up? && r.Some? ==> r.value + [parentDir[|parentDir| - 1]] == parentDir
    ensures arg.Relative? ==> r == Some(parentDir + [arg.name])
  {
    match arg
    case Absolute(p) => Some(p)
    case Up => if parentDir == [] then None else Some(parentDir[..|parentDir| - 1])
    case Relative(name) => Some(parentDir + [name])
  }

  /** `FileTreeNode`: every node carries its full path as its name. */
  datatype Node = File(name: Path, size: int) | Directory(name: Path, children: seq<Node>)

  // ---------------------------------------------------------------------
  // Searching and adding nodes
  // ---------------------------------------------------------------------

  /** `searchNode`: the node itself if it has the name, otherwise the first
      match among its directory children, depth first. Files below the
      starting node are never looked at. */
  function Search(name: Path, node: Node): (r: Option<Node>)
    ensures r.Some? ==> r.value.name == name
    ensures r.Some? && node.Directory? ==> r.value.Directory?
    decreases node
  {
    if node.name == name then Some(node)
    else if node.Directory? then SearchChildren(name, node.children)
    else None
  }

  function SearchChildren(name: Path, children: seq<Node>): (r: Option<Node>)
    ensures r.Some? ==> r.value.name == name && r.value.Directory?
    decreases children
  {
    if children == [] then None
    else
      var found := if children[0].Directory? then Search(name, children[0]) else None;
      if found.Some? then found else SearchChildren(name, children[1..])
  }

  /** Appends `newNode` to the children of the directory `searchNode`
      finds for `parent`; `None` when it finds none. */
  function Insert(node: Node, parent: Path, newNode: Node): (r: Option<Node>)
    ensures r.Some? ==> r.value.name == node.name && r.value.Directory? == node.Directory?
    decreases node
  {
    if node.name == parent then
      (if node.Directory? then Some(Directory(node.name, node.children + [newNode])) else None)
    else if node.Directory? then
      match InsertChildren(node.children, parent, newNode)
      case Some(cs) => Some(Directory(node.name, cs))
      case None => None
    else None
  }

  function InsertChildren(children: seq<Node>, parent: Path, newNode: Node): (r: Option<seq<Node>>)
    ensures r.Some? ==> |r.value| == |children|
    ensures r.Some? ==> forall k :: 0 <= k < |children| ==>
      r.value[k].name == children[k].name && r.value[k].Directory? == children[k].Directory?
    decreases children
  {
    if children == [] then None
    else
      var first := if children[0].Directory? then Insert(children[0], parent, newNode) else None;
      if first.Some? then Some([first.value] + children[1..])
      else
        match InsertChildren(children[1..], parent, newNode)
        case Some(rest) => Some([children[0]] + rest)
        case None => None
  }

  /** Insertion succeeds exactly where the search finds a directory. */
  lemma {:induction false} InsertWhereFound(node: Node, parent: Path, newNode: Node)
    ensures Insert(node, parent, newNode).Some? <==> (Search(parent, node).Some? && Search(parent, node).value.Directory?)
    decreases node
  {
    if node.name != parent && node.Directory? {
      InsertChildrenWhereFound(node.children, parent, newNode);
    }
  }

  lemma {:induction false} InsertChildrenWhereFound(children: seq<Node>, parent: Path, newNode: Node)
    ensures InsertChildren(children, parent, newNode).Some? <==> SearchChildren(parent, children).Some?
    decreases children
  {
    if children != [] {
      if children[0].Directory? {
        InsertWhereFound(children[0], parent, newNode);
      }
      InsertChildrenWhereFound(children[1..], parent, newNode);
    }
  }

  /** Searching a concatenation searches the first part, then the second. */
  lemma {:induction false} SearchChildrenConcat(name: Path, a: seq<Node>, b: seq<Node>)
    ensures SearchChildren(name, a + b) ==
      if SearchChildren(name, a).Some? then SearchChildren(name, a) else SearchChildren(name, b)
    decreases a
  {
    if a != [] {
      assert (a + b)[0] == a[0] && (a + b)[1..] == a[1..] + b;
      SearchChildrenConcat(name, a[1..], b);
    } else {
      assert a + b == b;
    }
  }

  /** After an insertion the search finds what it found before, plus the
      new node if it is a directory, and nothing else. */
  lemma {:induction false} InsertFinds(node: Node, parent: Path, newNode: Node, name: Path)
    requires Insert(node, parent, newNode).Some?
    ensures Search(name, Insert(node, parent, newNode).value).Some? <==>
      Search(name, node).Some? || (newNode.Directory? && Search(name, newNode).Some?)
    decreases node
  {
    if node.name != parent {
      InsertChildrenFinds(node.children, parent, newNode, name);
    } else if node.name != name {
      SearchChildrenConcat(name, node.children, [newNode]);
      assert [newNode][1..] == [];
    }
  }

  lemma {:induction false} InsertChildrenFinds(children: seq<Node>, parent: Path, newNode: Node, name: Path)
    requires InsertChildren(children, parent, newNode).Some?
    ensures SearchChildren(name, InsertChildren(children, parent, newNode).value).Some? <==>
      SearchChildren(name, children).Some? || (newNode.Directory? && Search(name, newNode).Some?)
    decreases children
  {
    var r := InsertChildren(children, parent, newNode).value;
    var first := if children[0].Directory? then Insert(children[0], parent, newNode) else None;
    SearchChildrenConcat(name, [r[0]], r[1..]);
    SearchChildrenConcat(name, [children[0]], children[1..]);
    assert r == [r[0]] + r[1..] && children == [children[0]] + children[1..];
    assert [r[0]][1..] == [] && [children[0]][1..] == [];
    if first.Some? {
      InsertFinds(children[0], parent, newNode, name);
      assert r[1..] == children[1..];
    } else {
      InsertChildrenFinds(children[1..], parent, newNode, name);
    }
  }

  // ---------------------------------------------------------------------
  // Sizes
  // ---------------------------------------------------------------------

  /** The size of a node: a file's own size, or the sum over a directory's
      children. */
  function Size(node: Node): int
    decreases node
  {
    match node
    case File(_, size) => size
    case Directory(_, children) => SizeChildren(children)
  }

  function SizeChildren(children: seq<Node>): int
    decreases children
  {
    if children == [] then 0 else SizeChildren(children[..|children| - 1]) + Size(children[|children| - 1])
  }

  lemma {:induction false} SizeChildrenConcat(a: seq<Node>, b: seq<Node>)
    ensures SizeChildren(a + b) == SizeChildren(a) + SizeChildren(b)
    decreases |b|
  {
    if b == [] {
      assert a + b == a;
    } else {
      assert (a + b)[..|a + b| - 1] == a + b[..|b| - 1];
      SizeChildrenConcat(a, b[..|b| - 1]);
    }
  }

  /** An insertion adds the size of the inserted node. */
  lemma {:induction false} InsertSize(node: Node, parent: Path, newNode: Node)
    requires Insert(node, parent, newNode).Some?
    ensures Size(Insert(node, parent, newNode).value) == Size(node) + Size(newNode)
    decreases node
  {
    if node.name == parent {
      SizeChildrenConcat(node.children, [newNode]);
      assert [newNode][..0] == [];
    } else {
      InsertChildrenSize(node.children, parent, newNode);
    }
  }

  lemma {:induction false} InsertChildrenSize(children: seq<Node>, parent: Path, newNode: Node)
    requires InsertChildren(children, parent, newNode).Some?
    ensures SizeChildren(InsertChildren(children, parent, newNode).value) == SizeChildren(children) + Size(newNode)
    decreases children
  {
    var r := InsertChildren(children, parent, newNode).value;
    var first := if children[0].Directory? then Insert(children[0], parent, newNode) else None;
    SizeChildrenConcat([r[0]], r[1..]);
    SizeChildrenConcat([children[0]], children[1..]);
    assert r == [r[0]] + r[1..] && children == [children[0]] + children[1..];
    assert [r[0]][..0] == [] && [children[0]][..0] == [];
    if first.Some? {
      InsertSize(children[0], parent, newNode);
      assert r[1..] == children[1..];
    } else {
      InsertChildrenSize(children[1..], parent, newNode);
    }
  }

  // ---------------------------------------------------------------------
  // The file tree
  // ---------------------------------------------------------------------

  /** The tree's root: the directory "/". */
  predicate IsRoot(root: Node) {
    root.Directory? && root.name == []
  }

  /** `addNode`: nothing happens when the search finds the name; otherwise
      the parent directory is first added when it is missing, and the node
      is appended to the children of the directory the search finds. */
  function AddNode(root: Node, newNode: Node): (r: Node)
    requires IsRoot(root)
    ensures IsRoot(r)
    ensures Search(newNode.name, root).Some? ==> r == root
    decreases |newNode.name|
  {
    if Search(newNode.name, root).Some? then root
    else
      var parentPath := newNode.name[..|newNode.name| - 1];
      var withParent := if Search(parentPath, root).None? then AddNode(root, Directory(parentPath, [])) else root;
      match Insert(withParent, parentPath, newNode)
      case Some(r) => r
      case None => withParent
  }

  function AddDirectory(root: Node, name: Path): (r: Node)
    requires IsRoot(root)
    ensures IsRoot(r)
  {
    AddNode(root, Directory(name, []))
  }

  function AddFile(root: Node, name: Path, size: int): (r: Node)
    requires IsRoot(root)
    ensures IsRoot(r)
  {
    AddNode(root, File(name, size))
  }

  /** A directory that has been added is found afterwards, and everything
      found before still is. */
  lemma {:induction false} AddNodeFinds(root: Node, newNode: Node, name: Path)
    requires IsRoot(root)
    ensures newNode.Directory? ==> Search(newNode.name, AddNode(root, newNode)).Some?
    ensures Search(name, root).Some? ==> Search(name, AddNode(root, newNode)).Some?
    decreases |newNode.name|
  {
    if Search(newNode.name, root).None? {
      var parentPath := newNode.name[..|newNode.name| - 1];
      var withParent := root;
      if Search(parentPath, root).None? {
        withParent := AddNode(root, Directory(parentPath, []));
        AddNodeFinds(root, Directory(parentPath, []), name);
      }
      InsertWhereFound(withParent, parentPath, newNode);
      InsertFinds(withParent, parentPath, newNode, name);
      InsertFinds(withParent, parentPath, newNode, newNode.name);
    }
  }

  /** Adding a node that is not found adds its size to the whole tree (the
      parent directories created on the way are empty). */
  lemma {:induction false} AddNodeSize(root: Node, newNode: Node)
    requires IsRoot(root) && Search(newNode.name, root).None?
    ensures Size(AddNode(root, newNode)) == Size(root) + Size(newNode)
    decreases |newNode.name|
  {
    var parentPath := newNode.name[..|newNode.name| - 1];
    var withParent := root;
    if Search(parentPath, root).None? {
      withParent := AddNode(root, Directory(parentPath, []));
      AddNodeSize(root, Directory(parentPath, []));
      AddNodeFinds(root, Directory(parentPath, []), parentPath);
      assert Size(Directory(parentPath, [])) == 0;
    }
    InsertWhereFound(withParent, parentPath, newNode);
    InsertSize(withParent, parentPath, newNode);
  }

  /** Adding a directory that already exists changes nothing. */
  lemma AddExistingDirectory(root: Node, name: Path)
    requires IsRoot(root) && Search(name, root).Some?
    ensures AddDirectory(root, name) == root
  {
  }

  /** Files are not de-duplicated: registering the same file twice in an
      existing directory counts its size twice. */
  lemma AddFileTwice(root: Node, name: Path, size: int)
    requires IsRoot(root) && name != []
    requires Search(name, root).None? && Search(name[..|name| - 1], root).Some?
    ensures Size(AddFile(AddFile(root, name, size), name, size)) == Size(root) + 2 * size
  {
    var once := AddFile(root, name, size);
    var parentPath := name[..|name| - 1];
    InsertWhereFound(root, parentPath, File(name, size));
    InsertFinds(root, parentPath, File(name, size), name);
    AddNodeSize(root, File(name, size));
    AddNodeSize(once, File(name, size));
  }

  // ---------------------------------------------------------------------
  // Directory sizes
  // ---------------------------------------------------------------------

  /** The sizes map `NodeSizeVisitor.visit` leaves: the children are
      visited in order, then the directory's own size is stored under its
      name. Files leave the map as it is. */
  function Collect(sizes: map<Path, int>, node: Node): map<Path, int>
    decreases node
  {
    match node
    case File(_, _) => sizes
    case Directory(name, children) => CollectChildren(sizes, children)[name := SizeChildren(children)]
  }

  function CollectChildren(sizes: map<Path, int>, children: seq<Node>): map<Path, int>
    decreases children
  {
    if children == [] then sizes
    else Collect(CollectChildren(sizes, children[..|children| - 1]), children[|children| - 1])
  }

  /** `NodeSizeVisitor.visit`: sums the children's sizes, recursing into
      subdirectories, and records the directory's size in the map. */
  method Visit(sizes: map<Path, int>, node: Node) returns (result: map<Path, int>, size: int)
    requires node.Directory?
    ensures result == Collect(sizes, node) && size == Size(node)
    decreases node
  {
    result, size := sizes, 0;
    var children := node.children;
    for i := 0 to |children|
      invariant result == CollectChildren(sizes, children[..i])
      invariant size == SizeChildren(children[..i])
    {
      assert children[..i + 1][..i] == children[..i];
      var child := children[i];
      match child
      case File(_, fileSize) =>
        size := size + fileSize;
      case Directory(_, _) =>
        var childSize;
        result, childSize := Visit(result, child);
        size := size + childSize;
    }
    assert children[..|children|] == children;
    result := result[node.name := size];
  }

  /** The names of the directories of a tree, in the order the search
      meets them. */
  function DirNames(node: Node): seq<Path>
    decreases node
  {
    match node
    case File(_, _) => []
    case Directory(name, children) => [name] + DirNamesChildren(children)
  }

  function DirNamesChildren(children: seq<Node>): seq<Path>
    decreases children
  {
    if children == [] then []
    else DirNamesChildren(children[..|children| - 1]) + DirNames(children[|children| - 1])
  }

  /** No name occurs twice. */
  ghost predicate Unique(names: seq<Path>) {
    forall x :: multiset(names)[x] <= 1
  }

  /** The visit adds an entry for every directory of the tree and no other. */
  lemma {:induction false} CollectKeys(sizes: map<Path, int>, node: Node)
    ensures forall x :: x in Collect(sizes, node) <==> x in sizes || x in DirNames(node)
    decreases node
  {
    if node.Directory? {
      CollectChildrenKeys(sizes, node.children);
    }
  }

  lemma {:induction false} CollectChildrenKeys(sizes: map<Path, int>, children: seq<Node>)
    ensures forall x :: x in CollectChildren(sizes, children) <==> x in sizes || x in DirNamesChildren(children)
    decreases children
  {
    if children != [] {
      var init := children[..|children| - 1];
      CollectChildrenKeys(sizes, init);
      CollectKeys(CollectChildren(sizes, init), children[|children| - 1]);
    }
  }

  /** The visit of a tree changes no entry outside the tree's directories. */
  lemma {:induction false} CollectFrame(sizes: map<Path, int>, node: Node, x: Path)
    requires x in sizes && x !in DirNames(node)
    ensures x in Collect(sizes, node) && Collect(sizes, node)[x] == sizes[x]
    decreases node
  {
    if node.Directory? {
      CollectChildrenFrame(sizes, node.children, x);
    }
  }

  lemma {:induction false} CollectChildrenFrame(sizes: map<Path, int>, children: seq<Node>, x: Path)
    requires x in sizes && x !in DirNamesChildren(children)
    ensures x in CollectChildren(sizes, children) && CollectChildren(sizes, children)[x] == sizes[x]
    decreases children
  {
    if children != [] {
      var init := children[..|children| - 1];
      CollectChildrenFrame(sizes, init, x);
      CollectFrame(CollectChildren(sizes, init), children[|children| - 1], x);
    }
  }

  /** The search finds a name below a directory exactly when it is one of
      the tree's directory names. */
  lemma {:induction false} SearchFindsDirNames(node: Node, x: Path)
    requires node.Directory?
    ensures Search(x, node).Some? <==> x in DirNames(node)
    decreases node
  {
    SearchChildrenFindsDirNames(node.children, x);
  }

  lemma {:induction false} SearchChildrenFindsDirNames(children: seq<Node>, x: Path)
    ensures SearchChildren(x, children).Some? <==> x in DirNamesChildren(children)
    decreases children
  {
    if children != [] {
      var init, last := children[..|children| - 1], children[|children| - 1];
      SearchChildrenFindsDirNames(init, x);
      assert children == init + [last];
      SearchChildrenConcat(x, init, [last]);
      assert [last][1..] == [];
      if last.Directory? {
        SearchFindsDirNames(last, x);
      }
    }
  }

  lemma {:induction false} DirNamesChildrenConcat(a: seq<Node>, b: seq<Node>)
    ensures DirNamesChildren(a + b) == DirNamesChildren(a) + DirNamesChildren(b)
    decreases b
  {
    if b == [] {
      assert a + b == a;
    } else {
      var init := b[..|b| - 1];
      assert (a + b)[..|a + b| - 1] == a + init;
      DirNamesChildrenConcat(a, init);
    }
  }

  lemma DirNamesChildrenSingle(node: Node)
    ensures DirNamesChildren([node]) == DirNames(node)
  {
    assert [node][..0] == [];
  }

  /** With unique directory names the visit stores, under every directory
      name, the size of the directory the search finds for it. */
  lemma {:induction false} CollectValues(sizes: map<Path, int>, node: Node, x: Path)
    requires node.Directory? && Unique(DirNames(node)) && x in DirNames(node)
    ensures Search(x, node).Some? && x in Collect(sizes, node)
    ensures Collect(sizes, node)[x] == Size(Search(x, node).value)
    decreases node
  {
    SearchFindsDirNames(node, x);
    var names := DirNamesChildren(node.children);
    assert DirNames(node) == [node.name] + names;
    if x != node.name {
      assert forall y :: multiset(names)[y] <= multiset(DirNames(node))[y];
      CollectChildrenValues(sizes, node.children, x);
    }
  }

  lemma {:induction false} CollectChildrenValues(sizes: map<Path, int>, children: seq<Node>, x: Path)
    requires Unique(DirNamesChildren(children)) && x in DirNamesChildren(children)
    ensures SearchChildren(x, children).Some? && x in CollectChildren(sizes, children)
    ensures CollectChildren(sizes, children)[x] == Size(SearchChildren(x, children).value)
    decreases children
  {
    SearchChildrenFindsDirNames(children, x);
    var init, last := children[..|children| - 1], children[|children| - 1];
    var before := CollectChildren(sizes, init);
    var names := DirNamesChildren(init);
    assert DirNamesChildren(children) == names + DirNames(last);
    assert children == init + [last];
    SearchChildrenConcat(x, init, [last]);
    assert [last][1..] == [];
    assert forall y :: multiset(names)[y] <= multiset(DirNamesChildren(children))[y];
    assert forall y :: multiset(DirNames(last))[y] <= multiset(DirNamesChildren(children))[y];
    if x in DirNames(last) {
      assert x !in names by {
        assert multiset(DirNamesChildren(children))[x] == multiset(names)[x] + multiset(DirNames(last))[x];
      }
      SearchChildrenFindsDirNames(init, x);
      CollectValues(before, last, x);
    } else {
      CollectChildrenValues(sizes, init, x);
      SearchChildrenFindsDirNames(init, x);
      if last.Directory? {
        CollectFrame(before, last, x);
      }
    }
  }

  /** An insertion adds the directory names of the new node and keeps all
      others. */
  lemma {:induction false} InsertDirNames(node: Node, parent: Path, newNode: Node)
    requires Insert(node, parent, newNode).Some?
    ensures multiset(DirNames(Insert(node, parent, newNode).value)) ==
      multiset(DirNames(node)) + multiset(DirNames(newNode))
    decreases node
  {
    if node.name == parent {
      DirNamesChildrenConcat(node.children, [newNode]);
      DirNamesChildrenSingle(newNode);
    } else {
      InsertChildrenDirNames(node.children, parent, newNode);
    }
  }

  lemma {:induction false} InsertChildrenDirNames(children: seq<Node>, parent: Path, newNode: Node)
    requires InsertChildren(children, parent, newNode).Some?
    ensures multiset(DirNamesChildren(InsertChildren(children, parent, newNode).value)) ==
      multiset(DirNamesChildren(children)) + multiset(DirNames(newNode))
    decreases children
  {
    var r := InsertChildren(children, parent, newNode).value;
    var head, tail := children[0], children[1..];
    assert children == [head] + tail && r == [r[0]] + r[1..];
    DirNamesChildrenConcat([head], tail);
    DirNamesChildrenSingle(head);
    DirNamesChildrenConcat([r[0]], r[1..]);
    DirNamesChildrenSingle(r[0]);
    if head.Directory? && Insert(head, parent, newNode).Some? {
      assert r[0] == Insert(head, parent, newNode).value && r[1..] == tail;
      InsertDirNames(head, parent, newNode);
      MultisetGrowsLeft(DirNames(head), DirNames(r[0]), DirNamesChildren(tail), DirNames(newNode));
    } else {
      assert r[0] == head && r[1..] == InsertChildren(tail, parent, newNode).value;
      InsertChildrenDirNames(tail, parent, newNode);
      MultisetGrowsRight(DirNames(head), DirNamesChildren(tail), DirNamesChildren(r[1..]), DirNames(newNode));
    }
  }

  lemma MultisetGrowsLeft(a: seq<Path>, a': seq<Path>, b: seq<Path>, added: seq<Path>)
    requires multiset(a') == multiset(a) + multiset(added)
    ensures multiset(a' + b) == multiset(a + b) + multiset(added)
  {
  }

  lemma MultisetGrowsRight(a: seq<Path>, b: seq<Path>, b': seq<Path>, added: seq<Path>)
    requires multiset(b') == multiset(b) + multiset(added)
    ensures multiset(a + b') == multiset(a + b) + multiset(added)
  {
  }

  /** Adding a file or an empty directory keeps the directory names of the
      tree unique. */
  lemma {:induction false} AddNodeKeepsUnique(root: Node, newNode: Node)
    requires IsRoot(root) && Unique(DirNames(root))
    requires newNode.File? || newNode.children == []
    ensures Unique(DirNames(AddNode(root, newNode)))
    decreases |newNode.name|
  {
    if Search(newNode.name, root).None? {
      var parentPath := newNode.name[..|newNode.name| - 1];
      var withParent := root;
      if Search(parentPath, root).None? {
        withParent := AddNode(root, Directory(parentPath, []));
        AddNodeKeepsUnique(root, Directory(parentPath, []));
        AddNodeFindsOnly(root, Directory(parentPath, []), newNode.name);
      }
      assert Unique(DirNames(withParent)) && Search(newNode.name, withParent).None?;
      var inserted := Insert(withParent, parentPath, newNode);
      if inserted.Some? {
        InsertDirNames(withParent, parentPath, newNode);
        if newNode.Directory? {
          assert DirNamesChildren([]) == [];
          SearchFindsDirNames(withParent, newNode.name);
          UniqueAddOne(DirNames(withParent), DirNames(inserted.value), newNode.name);
        } else {
          assert multiset(DirNames(inserted.value)) == multiset(DirNames(withParent));
        }
      }
    }
  }

  lemma UniqueAddOne(names: seq<Path>, names': seq<Path>, x: Path)
    requires Unique(names) && x !in names
    requires multiset(names') == multiset(names) + multiset([x])
    ensures Unique(names')
  {
    forall y
      ensures multiset(names')[y] <= 1
    {
      assert multiset(names')[y] == multiset(names)[y] + multiset([x])[y];
    }
  }

  /** Adding a file or an empty directory makes the search find nothing new
      but the added directory and the parents created for it. */
  lemma {:induction false} AddNodeFindsOnly(root: Node, newNode: Node, name: Path)
    requires IsRoot(root)
    requires newNode.File? || newNode.children == []
    ensures Search(name, AddNode(root, newNode)).Some? ==>
      Search(name, root).Some? || |name| <= |newNode.name|
    decreases |newNode.name|
  {
    if Search(newNode.name, root).None? {
      var parentPath := newNode.name[..|newNode.name| - 1];
      var withParent := root;
      if Search(parentPath, root).None? {
        withParent := AddNode(root, Directory(parentPath, []));
        AddNodeFindsOnly(root, Directory(parentPath, []), name);
      }
      if Insert(withParent, parentPath, newNode).Some? {
        InsertFinds(withParent, parentPath, newNode, name);
      }
    }
  }

  // ---------------------------------------------------------------------
  // The interpreter
  // ---------------------------------------------------------------------

  datatype Command = ListCommand | ChangeDirectoryCommand(directory: PathArg)

  /** `InterpreterContext`. */
  datatype Context = Context(currentDirectory: Path, listingDirectory: bool, fileTree: Node)

  const InitialContext := Context([], false, Directory([], []))

  /** The state in which the interpreter keeps its context: the tree is
      rooted at "/" and names each directory once. */
  ghost predicate WellFormed(context: Context) {
    IsRoot(context.fileTree) && Unique(DirNames(context.fileTree))
  }

  /** `Command.execute`: `ls` makes sure the current directory exists and
      starts a listing; `cd` moves and ends it. `None` is the failure of
      `cd ..` at the root. */
  function Execute(command: Command, context: Context): (r: Option<Context>)
    requires IsRoot(context.fileTree)
    ensures r.Some? ==> IsRoot(r.value.fileTree)
    ensures command.ListCommand? ==>
      r.Some? && r.value.listingDirectory && r.value.currentDirectory == context.currentDirectory &&
      Search(context.currentDirectory, r.value.fileTree).Some?
    ensures command.ChangeDirectoryCommand? ==>
      r == (match ToAbsolutePath(command.directory, context.currentDirectory)
            case None => None
            case Some(p) => Some(context.(currentDirectory := p, listingDirectory := false)))
  {
    match command
    case ListCommand =>
      AddNodeFinds(context.fileTree, Directory(context.currentDirectory, []), []);
      Some(context.(fileTree := AddDirectory(context.fileTree, context.currentDirectory), listingDirectory := true))
    case ChangeDirectoryCommand(directory) =>
      match ToAbsolutePath(directory, context.currentDirectory)
      case None => None
      case Some(p) => Some(context.(currentDirectory := p, listingDirectory := false))
  }

  /** A line of the transcript as the regular expressions of `play` read
      it. */
  datatype Line =
    | ChangeDirectoryLine(directory: PathArg)   // "$ cd <directory>"
    | ListLine                                  // "$ ls"
    | OtherCommandLine                          // any other "$ ..."
    | DirLine(name: PathArg)                    // "dir <name>"
    | FileLine(size: int, name: PathArg)        // "<size> <name>"
    | OtherLine                                 // anything else

  /** `registerDirectory` and `registerFile` on a context. */
  function Register(context: Context, entry: Line): (r: Option<Context>)
    requires IsRoot(context.fileTree) && (entry.DirLine? || entry.FileLine?)
    ensures r.Some? ==> IsRoot(r.value.fileTree)
    ensures r.Some? <==> ToAbsolutePath(entry.name, context.currentDirectory).Some?
    ensures r.Some? ==>
      r.value.currentDirectory == context.currentDirectory && r.value.listingDirectory == context.listingDirectory
  {
    match ToAbsolutePath(entry.name, context.currentDirectory)
    case None => None
    case Some(path) =>
      if entry.DirLine? then Some(context.(fileTree := AddDirectory(context.fileTree, path)))
      else Some(context.(fileTree := AddFile(context.fileTree, path, entry.size)))
  }

  /** One iteration of the loop in `play`: entries are registered only while
      a listing is going on. */
  function Step(context: Context, line: Line): (r: Option<Context>)
    requires IsRoot(context.fileTree)
    ensures r.Some? ==> IsRoot(r.value.fileTree)
  {
    match line
    case ChangeDirectoryLine(directory) => Execute(ChangeDirectoryCommand(directory), context)
    case ListLine => Execute(ListCommand, context)
    case OtherCommandLine => Some(context)
    case OtherLine => Some(context)
    case _ => if context.listingDirectory then Register(context, line) else Some(context)
  }

  /** The context after the whole transcript, `None` if a step fails. */
  function Replay(context: Context, lines: seq<Line>): (r: Option<Context>)
    requires IsRoot(context.fileTree)
    ensures r.Some? ==> IsRoot(r.value.fileTree)
    decreases lines
  {
    if lines == [] then Some(context)
    else
      match Step(context, lines[0])
      case None => None
      case Some(next) => Replay(next, lines[1..])
  }

  /** Every step keeps directory names unique. */
  lemma StepKeepsWellFormed(context: Context, line: Line)
    requires WellFormed(context) && Step(context, line).Some?
    ensures WellFormed(Step(context, line).value)
  {
    match line
    case ListLine =>
      AddNodeKeepsUnique(context.fileTree, Directory(context.currentDirectory, []));
    case DirLine(name) =>
      if context.listingDirectory {
        AddNodeKeepsUnique(context.fileTree, Directory(ToAbsolutePath(name, context.currentDirectory).value, []));
      }
    case FileLine(size, name) =>
      if context.listingDirectory {
        AddNodeKeepsUnique(context.fileTree, File(ToAbsolutePath(name, context.currentDirectory).value, size));
      }
    case _ =>
  }

  lemma {:induction false} ReplayKeepsWellFormed(context: Context, lines: seq<Line>)
    requires WellFormed(context) && Replay(context, lines).Some?
    ensures WellFormed(Replay(context, lines).value)
    decreases lines
  {
    if lines != [] {
      StepKeepsWellFormed(context, lines[0]);
      ReplayKeepsWellFormed(Step(context, lines[0]).value, lines[1..]);
    }
  }

  /** A directory once in the tree stays there: every `ls` leaves its
      directory in the final tree. */
  lemma StepKeepsFound(context: Context, line: Line, name: Path)
    requires IsRoot(context.fileTree) && Step(context, line).Some?
    requires Search(name, context.fileTree).Some?
    ensures Search(name, Step(context, line).value.fileTree).Some?
  {
    match line
    case ListLine =>
      AddNodeFinds(context.fileTree, Directory(context.currentDirectory, []), name);
    case DirLine(entry) =>
      if context.listingDirectory {
        AddNodeFinds(context.fileTree, Directory(ToAbsolutePath(entry, context.currentDirectory).value, []), name);
      }
    case FileLine(size, entry) =>
      if context.listingDirectory {
        AddNodeFinds(context.fileTree, File(ToAbsolutePath(entry, context.currentDirectory).value, size), name);
      }
    case _ =>
  }

  lemma {:induction false} ReplayKeepsFound(context: Context, lines: seq<Line>, name: Path)
    requires IsRoot(context.fileTree) && Replay(context, lines).Some?
    requires Search(name, context.fileTree).Some?
    ensures Search(name, Replay(context, lines).value.fileTree).Some?
    decreases lines
  {
    if lines != [] {
      StepKeepsFound(context, lines[0], name);
      ReplayKeepsFound(Step(context, lines[0]).value, lines[1..], name);
    }
  }

  /** `Interpreter`: holds the context and replaces it command by command. */
  class Interpreter {
    var context: Context

    ghost predicate Valid()
      reads this
    {
      WellFormed(context)
    }

    constructor()
      ensures Valid() && context == InitialContext
    {
      context := InitialContext;
      new;
      assert DirNames(context.fileTree) == [[]] by {
        assert DirNamesChildren([]) == [];
      }
    }

    function ListingDirectory(): bool
      reads this
    {
      context.listingDirectory
    }

    /** `execute`. */
    method ExecuteCommand(command: Command)
      requires Valid() && Execute(command, context).Some?
      modifies this
      ensures Valid() && context == Execute(command, old(context)).value
    {
      var line := if command.ListCommand? then ListLine else ChangeDirectoryLine(command.directory);
      assert Step(context, line) == Execute(command, context);
      StepKeepsWellFormed(context, line);
      context := Execute(command, context).value;
    }

    /** `registerDirectory` and `registerFile`. */
    method RegisterEntry(entry: Line)
      requires Valid() && (entry.DirLine? || entry.FileLine?)
      requires Register(context, entry).Some?
      modifies this
      ensures Valid() && context == Register(old(context), entry).value
    {
      var listing := context.(listingDirectory := true);
      assert Step(listing, entry) == Register(listing, entry);
      StepKeepsWellFormed(listing, entry);
      context := Register(context, entry).value;
    }

    /** `calculateSizesMap`: the visit from the root. */
    method CalculateSizesMap() returns (sizes: map<Path, int>)
      requires Valid()
      ensures sizes == Collect(map[], context.fileTree)
    {
      var total;
      sizes, total := Visit(map[], context.fileTree);
    }
  }

  /** `play`: the transcript is replayed line by line into an interpreter
      and the sizes map of the final tree is returned. */
  method Play(lines: seq<Line>) returns (sizes: map<Path, int>)
    requires Replay(InitialContext, lines).Some?
    ensures sizes == Collect(map[], Replay(InitialContext, lines).value.fileTree)
  {
    var interpreter := new Interpreter();
    for i := 0 to |lines|
      invariant interpreter.Valid()
      invariant Replay(interpreter.context, lines[i..]) == Replay(InitialContext, lines)
    {
      assert lines[i..][1..] == lines[i + 1..];
      var line := lines[i];
      match line
      case ChangeDirectoryLine(directory) =>
        interpreter.ExecuteCommand(ChangeDirectoryCommand(directory));
      case ListLine =>
        interpreter.ExecuteCommand(ListCommand);
      case DirLine(_) =>
        if interpreter.ListingDirectory() {
          interpreter.RegisterEntry(line);
        }
      case FileLine(_, _) =>
        if interpreter.ListingDirectory() {
          interpreter.RegisterEntry(line);
        }
      case _ =>
    }
    sizes := interpreter.CalculateSizesMap();
  }

  /** The sizes map of a well-formed tree has an entry for exactly the
      directories the search finds, holding the size of that directory. */
  lemma SizesMapMeaning(tree: Node, name: Path)
    requires IsRoot(tree) && Unique(DirNames(tree))
    ensures name in Collect(map[], tree) <==> Search(name, tree).Some?
    ensures name in Collect(map[], tree) ==> Collect(map[], tree)[name] == Size(Search(name, tree).value)
  {
    CollectKeys(map[], tree);
    SearchFindsDirNames(tree, name);
    if name in DirNames(tree) {
      CollectValues(map[], tree, name);
    }
  }

  /** What `play` returns: for every directory of the replayed tree its
      size, and nothing else; every directory that was listed is there. */
  lemma PlayMeaning(lines: seq<Line>, name: Path)
    requires Replay(InitialContext, lines).Some?
    ensures var tree := Replay(InitialContext, lines).value.fileTree;
      (name in Collect(map[], tree) <==> Search(name, tree).Some?) &&
      (name in Collect(map[], tree) ==> Collect(map[], tree)[name] == Size(Search(name, tree).value))
  {
    assert DirNamesChildren([]) == [];
    ReplayKeepsWellFormed(InitialContext, lines);
    SizesMapMeaning(Replay(InitialContext, lines).value.fileTree, name);
  }

  // ---------------------------------------------------------------------
  // The answers
  // ---------------------------------------------------------------------

  /** The sum of the values of `sizes` that are at most `limit`. */
  ghost function SumAtMost(sizes: map<Path, int>, limit: int): (r: int)
    ensures (forall k :: k in sizes ==> sizes[k] >= 0) ==> 0 <= r
    ensures 0 <= limit ==> r <= |sizes| * limit
    ensures (forall k :: k in sizes ==> sizes[k] > limit) ==> r == 0
    decreases |sizes|
  {
    if sizes == map[] then 0
    else
      var k := Pick(sizes.Keys);
      var rest := sizes - {k};
      assert rest.Keys == sizes.Keys - {k} && |sizes| == |rest| + 1;
      assert forall j :: j in rest ==> rest[j] == sizes[j];
      MultiplyStep(|rest|, limit);
      (if sizes[k] <= limit then sizes[k] else 0) + SumAtMost(rest, limit)
  }

  lemma MultiplyStep(n: nat, x: int)
    ensures (n + 1) * x == n * x + x
  {
  }

  /** Part 1: the total size of the directories of at most 100000. */
  ghost function Part1(sizes: map<Path, int>): int {
    SumAtMost(sizes, MaxDirectoryTotalSize)
  }

  /** The smallest value of `sizes` that is at least `bound`, `None` when
      there is none (where the source's `min()` fails). */
  ghost function MinAtLeast(sizes: map<Path, int>, bound: int): (r: Option<int>)
    ensures r.Some? <==> exists k :: k in sizes && sizes[k] >= bound
    ensures r.Some? ==> r.value >= bound && (exists k :: k in sizes && sizes[k] == r.value)
    ensures r.Some? ==> forall k :: k in sizes && sizes[k] >= bound ==> r.value <= sizes[k]
    decreases |sizes|
  {
    if sizes == map[] then None
    else
      var k := Pick(sizes.Keys);
      var rest := sizes - {k};
      assert rest.Keys == sizes.Keys - {k};
      assert forall j :: j in sizes ==> j == k || (j in rest && rest[j] == sizes[j]);
      var other := MinAtLeast(rest, bound);
      if sizes[k] < bound then other
      else if other.Some? && other.value < sizes[k] then other
      else Some(sizes[k])
  }

  /** Part 2: the size of the smallest directory whose removal frees enough
      space for the update, `0` when there is enough already. */
  ghost function Part2(sizes: map<Path, int>): (r: Option<int>)
    ensures var used := if [] in sizes then sizes[[]] else 0;
      r.Some? && r.value != 0 ==> used - r.value <= TotalDiskSpace - SpaceNeededForUpdate
  {
    var totalUsedSpace := if [] in sizes then sizes[[]] else 0;
    var remainingSpace := TotalDiskSpace - totalUsedSpace;
    if remainingSpace < SpaceNeededForUpdate then
      MinAtLeast(sizes, SpaceNeededForUpdate - remainingSpace)
    else Some(0)
  }

  /** The `min()` of part 2 never fails on what `play` returns: the root
      itself frees enough space. */
  lemma Part2Defined(lines: seq<Line>)
    requires Replay(InitialContext, lines).Some?
    ensures Part2(Collect(map[], Replay(InitialContext, lines).value.fileTree)).Some?
  {
    var tree := Replay(InitialContext, lines).value.fileTree;
    var sizes := Collect(map[], tree);
    assert [] in sizes && sizes[[]] == SizeChildren(tree.children);
  }
}
