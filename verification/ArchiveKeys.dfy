/** Exactly when the imported rows keep both unique keys of the database: the siblings' and that of the path. */
module ArchiveKeys {
  import opened ArchiveNames
  import opened ArchivePaths
  import opened ArchiveImport
  import opened ArchiveWalk
  import opened ArchiveNaming
  import opened Sequences

  // ----- one leaf, two nodes -----

  /** The last component of a node's path, up to case. */
  function LeafKey(name: string, ext: string): string {
    Lower(Leaf(name, ext))
  }

  lemma LowerDot(s: string)
    ensures Lower(".") == "." && ('.' in Lower(s) <==> '.' in s)
  {
    forall i | 0 <= i < |s| ensures Lower(s)[i] == '.' <==> s[i] == '.' {
    }
    if '.' in s {
      var i :| 0 <= i < |s| && s[i] == '.';
      assert Lower(s)[i] == '.';
    }
  }

  lemma LeafKeyIs(name: string, ext: string)
    ensures LeafKey(name, ext) == if ext == "" then Lower(name) else Lower(name) + "." + Lower(ext)
  {
    LowerDot("");
    LowerConcat(name + ".", ext);
    LowerConcat(name, ".");
  }

  lemma SameTail(a: string, b: string, tail: string)
    ensures a + tail == b + tail <==> a == b
  {
    assert a == (a + tail)[..|a + tail| - |tail|] && b == (b + tail)[..|b + tail| - |tail|];
  }

  /** Under one extension, nodes share their leaf exactly when they share their name. */
  lemma SameExtension(n: Node, m: Node)
    requires Lower(n.ext) == Lower(m.ext)
    ensures LeafKey(n.name, n.ext) == LeafKey(m.name, m.ext) <==> Pair(n.name, n.ext) == Pair(m.name, m.ext)
  {
    var a, b, x := Lower(n.name), Lower(m.name), Lower(n.ext);
    LeafKeyIs(n.name, n.ext);
    LeafKeyIs(m.name, m.ext);
    SameTail(a + "/", b + "/", x);
    SameTail(a, b, "/");
    SameTail(a + ".", b + ".", x);
    SameTail(a, b, ".");
  }

  /** Two nodes have one leaf but cut it into name and extension at different places. */
  predicate Cross(n: Node, m: Node) {
    LeafKey(n.name, n.ext) == LeafKey(m.name, m.ext) && Lower(n.ext) != Lower(m.ext)
  }

  /** The key of parent, name and extension lets such nodes pass. */
  lemma CrossingPassesTheKey(n: Node, m: Node)
    requires NoSlash(n.name) && NoSlash(m.name) && Cross(n, m)
    ensures Pair(n.name, n.ext) != Pair(m.name, m.ext)
  {
    if Pair(n.name, n.ext) == Pair(m.name, m.ext) { KeyInjective("", n.name, n.ext, m.name, m.ext); }
  }

  lemma SameLeaf(n: Node, m: Node)
    requires NoSlash(n.name) && NoSlash(m.name)
    ensures LeafKey(n.name, n.ext) == LeafKey(m.name, m.ext) <==>
              Pair(n.name, n.ext) == Pair(m.name, m.ext) || Cross(n, m)
  {
    if Lower(n.ext) == Lower(m.ext) {
      SameExtension(n, m);
    } else if Pair(n.name, n.ext) == Pair(m.name, m.ext) {
      KeyInjective("", n.name, n.ext, m.name, m.ext);
    }
  }

  lemma LastPart(a: string, b: string, x: string, y: string, c: char)
    requires a + [c] + x == b + [c] + y && c !in x && c !in y
    ensures a == b && x == y
  {
    var s := a + [c] + x;
    forall i | |a| < i < |s| ensures s[i] != c {
      assert s[i] == x[i - |a| - 1];
    }
    forall i | |b| < i < |s| ensures s[i] != c {
      assert s == b + [c] + y && s[i] == y[i - |b| - 1];
    }
    assert s[|a|] == c && s[|b|] == c;
    assert a == s[..|a|] && b == s[..|a|];
    assert x == s[|a| + 1..] && y == s[|a| + 1..];
  }

  /**
   * Nodes cross only if one has no extension, as a folder, and ends in the other's, or if one of the
   * extensions holds a dot.
   */
  lemma CrossingNeedsDot(n: Node, m: Node)
    requires Cross(n, m)
    ensures n.ext == "" || m.ext == "" || '.' in n.ext || '.' in m.ext
    ensures n.ext == "" ==> Lower(n.name) == Lower(m.name) + "." + Lower(m.ext)
  {
    LeafKeyIs(n.name, n.ext);
    LeafKeyIs(m.name, m.ext);
    LowerDot(n.ext);
    LowerDot(m.ext);
    if n.ext != "" && m.ext != "" && '.' !in n.ext && '.' !in m.ext {
      LastPart(Lower(n.name), Lower(m.name), Lower(n.ext), Lower(m.ext), '.');
    }
  }

  // ----- paths differ exactly when leaves of siblings do -----

  /** The rows keep UNIQUE KEY (file_path) under a case-insensitive collation. */
  predicate PathsDiffer(nodes: seq<Node>) {
    forall i, k :: 0 <= i < k < |nodes| ==> Lower(nodes[i].path) != Lower(nodes[k].path)
  }

  predicate LeavesDiffer(nodes: seq<Node>) {
    forall i, k :: 0 <= i < k < |nodes| && nodes[i].parentId == nodes[k].parentId ==>
      LeafKey(nodes[i].name, nodes[i].ext) != LeafKey(nodes[k].name, nodes[k].ext)
  }

  /** The path of a folder as its children's paths start with it. */
  function Base(path: string): string {
    if path == "/" then "/" else path + "/"
  }

  lemma ChildPath(p: Node, n: Node)
    requires ChildOf(p, n)
    ensures Lower(n.path) == Lower(Base(p.path)) + LeafKey(n.name, n.ext) && NoSlash(LeafKey(n.name, n.ext))
    ensures |n.path| > |p.path|
  {
    LowerConcat(Base(p.path), Leaf(n.name, n.ext));
    LowerNoSlash(Leaf(n.name, n.ext));
  }

  lemma LowerBase(path: string)
    ensures Lower(Base(path)) == (if path == "/" then "" else Lower(path)) + "/"
  {
    assert Lower("/") == "/";
    LowerConcat(path, "/");
  }

  /** Children have one path up to case exactly when their folders have and their leaves are the same. */
  lemma SamePath(p: Node, n: Node, q: Node, m: Node)
    requires ChildOf(p, n) && ChildOf(q, m) && p.path != "" && q.path != ""
    ensures Lower(n.path) == Lower(m.path) <==>
              Lower(p.path) == Lower(q.path) && LeafKey(n.name, n.ext) == LeafKey(m.name, m.ext)
  {
    ChildPath(p, n);
    ChildPath(q, m);
    LowerBase(p.path);
    LowerBase(q.path);
    var a, b := if p.path == "/" then "" else Lower(p.path), if q.path == "/" then "" else Lower(q.path);
    RootAlike(p.path, q.path);
    if Lower(n.path) == Lower(m.path) {
      LastPart(a, b, LeafKey(n.name, n.ext), LeafKey(m.name, m.ext), '/');
    }
  }

  /** Only the root folder's path is "/" up to case. */
  lemma RootAlike(p: string, q: string)
    requires p != "" && q != ""
    ensures Lower(p) == Lower(q) <==>
              (if p == "/" then "" else Lower(p)) == (if q == "/" then "" else Lower(q))
  {
    OnlySlash(p);
    OnlySlash(q);
  }

  lemma OnlySlash(p: string)
    ensures Lower(p) == "/" <==> p == "/"
  {
    if Lower(p) == "/" {
      assert |p| == 1 && LowerChar(p[0]) == '/';
      assert p == [p[0]];
    }
    assert Lower("/") == "/";
  }

  /** The folder of a node, before it in the list. */
  lemma FolderOf(nodes: seq<Node>, k: nat, supply: Supply) returns (p: nat)
    requires Tree(nodes, supply) && 0 < k < |nodes|
    ensures p < k && ChildOf(nodes[p], nodes[k]) && nodes[p].path != "" && nodes[k].parentId == supply.ids(p)
  {
    assert HasParent(nodes, k);
    var q :| 0 <= q < k && ChildOf(nodes[q], nodes[k]);
    assert Normal(nodes[q].path);
    p := q;
  }

  lemma {:induction false} DeeperIsLonger(nodes: seq<Node>, k: nat, supply: Supply)
    requires Tree(nodes, supply) && 0 < k < |nodes|
    ensures |nodes[k].path| > |nodes[0].path|
    decreases k
  {
    var p := FolderOf(nodes, k, supply);
    ChildPath(nodes[p], nodes[k]);
    if p > 0 { DeeperIsLonger(nodes, p, supply); }
  }

  /** Two nodes of different folders. */
  predicate FoldersApart(nodes: seq<Node>, p: nat, q: nat) {
    p < |nodes| && q < |nodes| && Lower(nodes[p].path) != Lower(nodes[q].path)
  }

  /** If siblings' leaves differ, so do any two paths. */
  lemma {:induction false} PathsApart(nodes: seq<Node>, i: nat, k: nat, supply: Supply)
    requires Tree(nodes, supply) && LeavesDiffer(nodes) && i < k < |nodes|
    ensures FoldersApart(nodes, i, k)
    decreases k
  {
    if i == 0 {
      DeeperIsLonger(nodes, k, supply);
    } else {
      var p := FolderOf(nodes, i, supply);
      var q := FolderOf(nodes, k, supply);
      SamePath(nodes[p], nodes[i], nodes[q], nodes[k]);
      if p < q {
        PathsApart(nodes, p, q, supply);
      } else if q < p {
        PathsApart(nodes, q, p, supply);
      }
    }
  }

  lemma SiblingsShareFolder(nodes: seq<Node>, i: nat, k: nat, supply: Supply) returns (p: nat)
    requires Tree(nodes, supply) && DistinctIds(supply) && OutsideRoot(nodes[0], supply)
    requires i < k < |nodes| && nodes[i].parentId == nodes[k].parentId
    ensures 0 < i && p < i && ChildOf(nodes[p], nodes[i]) && ChildOf(nodes[p], nodes[k]) && nodes[p].path != ""
  {
    p := FolderOf(nodes, k, supply);
    if i > 0 {
      var q := FolderOf(nodes, i, supply);
      assert supply.ids(p) == supply.ids(q);
    }
  }

  /** Siblings with one leaf have one path. */
  lemma SiblingsAlike(nodes: seq<Node>, i: nat, k: nat, supply: Supply)
    requires Tree(nodes, supply) && DistinctIds(supply) && OutsideRoot(nodes[0], supply)
    requires i < k < |nodes| && nodes[i].parentId == nodes[k].parentId && FoldersApart(nodes, i, k)
    ensures LeafKey(nodes[i].name, nodes[i].ext) != LeafKey(nodes[k].name, nodes[k].ext)
  {
    var p := SiblingsShareFolder(nodes, i, k, supply);
    SamePath(nodes[p], nodes[i], nodes[p], nodes[k]);
  }

  /** In a tree, no two paths are equal up to case exactly when no two siblings' leaves are. */
  lemma PathsDifferExactly(nodes: seq<Node>, supply: Supply)
    requires Tree(nodes, supply) && DistinctIds(supply) && OutsideRoot(nodes[0], supply)
    ensures PathsDiffer(nodes) <==> LeavesDiffer(nodes)
  {
    if LeavesDiffer(nodes) {
      forall i, k | 0 <= i < k < |nodes| ensures Lower(nodes[i].path) != Lower(nodes[k].path) {
        PathsApart(nodes, i, k, supply);
      }
    }
    if PathsDiffer(nodes) {
      forall i, k | 0 <= i < k < |nodes| && nodes[i].parentId == nodes[k].parentId
        ensures LeafKey(nodes[i].name, nodes[i].ext) != LeafKey(nodes[k].name, nodes[k].ext)
      {
        SiblingsAlike(nodes, i, k, supply);
      }
    }
  }

  // ----- through the walk -----

  /** No two siblings share a leaf that they cut differently. */
  predicate NothingCrosses(nodes: seq<Node>) {
    forall i, k :: 0 <= i < k < |nodes| && nodes[i].parentId == nodes[k].parentId ==> !Cross(nodes[i], nodes[k])
  }

  /** An imported sibling has the node's leaf, with another extension. */
  predicate Crossed(nodes: seq<Node>, n: Node) {
    exists i :: 0 <= i < |nodes| && nodes[i].parentId == n.parentId && Cross(nodes[i], n)
  }

  lemma CrossOneMore(nodes: seq<Node>, n: Node)
    ensures NothingCrosses(nodes + [n]) <==> NothingCrosses(nodes) && !Crossed(nodes, n)
  {
    var more := nodes + [n];
    assert more[|nodes|] == n && forall i :: 0 <= i < |nodes| ==> more[i] == nodes[i];
    if Crossed(nodes, n) {
      var i :| 0 <= i < |nodes| && nodes[i].parentId == n.parentId && Cross(nodes[i], n);
      assert more[i].parentId == more[|nodes|].parentId && Cross(more[i], more[|nodes|]);
    }
    if NothingCrosses(more) {
      forall i, k | 0 <= i < k < |nodes| && nodes[i].parentId == nodes[k].parentId ensures !Cross(nodes[i], nodes[k]) {
        assert !Cross(more[i], more[k]);
      }
    }
  }

  ghost predicate Uncrossed(e: Entry, at: Place, seen: set<string>, w: Walked, supply: Supply)
    requires PlainSuffixes(supply)
    decreases e
  {
    Regular(e) ==>
      var node := NodeOf(e, at, seen, |w.nodes|, supply);
      |node.path| <= MAX_FILE_PATH ==>
        !Crossed(w.nodes, node) &&
        (e.Folder? && e.readable ==>
           UncrossedAll(e.kids, Below(e, at, node), {}, w.(nodes := w.nodes + [node]), supply))
  }

  /** No node the walk adds gets the leaf of an imported sibling with another extension. */
  ghost predicate UncrossedAll(es: seq<Entry>, at: Place, seen: set<string>, w: Walked, supply: Supply)
    requires PlainSuffixes(supply)
    decreases es
  {
    es != [] && |w.nodes| < MAX_ENTRIES ==>
      Uncrossed(es[0], at, seen, w, supply) &&
      UncrossedAll(es[1..], at, SeenAfter(es[0], at, seen, |w.nodes|, supply), WalkOne(es[0], at, seen, w, supply),
        supply)
  }

  lemma {:induction false} EntryCrosses(e: Entry, at: Place, seen: set<string>, w: Walked, supply: Supply)
    requires PlainSuffixes(supply)
    ensures NothingCrosses(WalkOne(e, at, seen, w, supply).nodes) <==>
              NothingCrosses(w.nodes) && Uncrossed(e, at, seen, w, supply)
    decreases e
  {
    if Regular(e) {
      var node := NodeOf(e, at, seen, |w.nodes|, supply);
      CrossOneMore(w.nodes, node);
      if e.Folder? && e.readable {
        WalkCrosses(e.kids, Below(e, at, node), {}, w.(nodes := w.nodes + [node]), supply);
        WalkedFolder(e, at, seen, w, supply);
      } else {
        WalkedLeaf(e, at, seen, w, supply);
      }
    }
  }

  /** The walk keeps siblings from crossing exactly when no chosen leaf is that of a differently cut sibling. */
  lemma {:induction false} WalkCrosses(es: seq<Entry>, at: Place, seen: set<string>, w: Walked, supply: Supply)
    requires PlainSuffixes(supply)
    ensures NothingCrosses(Walk(es, at, seen, w, supply).nodes) <==>
              NothingCrosses(w.nodes) && UncrossedAll(es, at, seen, w, supply)
    decreases es
  {
    if es != [] && |w.nodes| < MAX_ENTRIES {
      EntryCrosses(es[0], at, seen, w, supply);
      WalkCrosses(es[1..], at, SeenAfter(es[0], at, seen, |w.nodes|, supply), WalkOne(es[0], at, seen, w, supply),
        supply);
    }
  }

  // ----- the whole import -----

  /** Siblings' leaves differ exactly when their keys do and nothing crosses. */
  lemma LeavesDifferExactly(nodes: seq<Node>, supply: Supply)
    requires Tree(nodes, supply) && DistinctIds(supply) && OutsideRoot(nodes[0], supply)
    ensures LeavesDiffer(nodes) <==> SiblingsDiffer(nodes) && NothingCrosses(nodes)
  {
    forall i, k | 0 <= i < k < |nodes| && nodes[i].parentId == nodes[k].parentId
      ensures LeafKey(nodes[i].name, nodes[i].ext) == LeafKey(nodes[k].name, nodes[k].ext) <==>
                Pair(nodes[i].name, nodes[i].ext) == Pair(nodes[k].name, nodes[k].ext) || Cross(nodes[i], nodes[k])
    {
      var p := SiblingsShareFolder(nodes, i, k, supply);
      SameLeaf(nodes[i], nodes[k]);
    }
  }

  /** What the database asks of the rows: both unique keys kept, and every name within its column. */
  predicate RowsAreSound(nodes: seq<Node>) {
    SiblingsDiffer(nodes) && PathsDiffer(nodes) && NamesFit(nodes)
  }

  /** The rows of a tree are sound exactly when siblings keep apart, names fit and nothing crosses. */
  lemma RowsAreSoundExactly(nodes: seq<Node>, supply: Supply)
    requires Tree(nodes, supply) && DistinctIds(supply) && OutsideRoot(nodes[0], supply)
    ensures RowsAreSound(nodes) <==> Sound(nodes) && NothingCrosses(nodes)
  {
    PathsDifferExactly(nodes, supply);
    LeavesDifferExactly(nodes, supply);
  }

  /**
   * An import keeps both unique keys, and its names fit, exactly when each random suffix drawn fits and
   * is new among the imported siblings, and no node gets the leaf of a sibling with another extension.
   */
  lemma ImportIsSoundExactly(es: seq<Entry>, dir: string, root: Node, supply: Supply)
    requires PlainSuffixes(supply) && DistinctIds(supply) && ImportedRoot(root, supply) && OutsideRoot(root, supply)
    ensures RowsAreSound(Imported(es, dir, root, supply).nodes) <==>
              GoodDrawsAll(es, Place(dir, root, 1), {}, Walked([root], false, 0), supply) &&
              UncrossedAll(es, Place(dir, root, 1), {}, Walked([root], false, 0), supply)
  {
    ImportIsTree(es, dir, root, supply);
    WalkIsSoundFromRoot(es, dir, root, supply);
    WalkCrosses(es, Place(dir, root, 1), {}, Walked([root], false, 0), supply);
    RowsAreSoundExactly(Imported(es, dir, root, supply).nodes, supply);
  }

  lemma WalkIsSoundFromRoot(es: seq<Entry>, dir: string, root: Node, supply: Supply)
    requires PlainSuffixes(supply) && DistinctIds(supply) && ImportedRoot(root, supply) && OutsideRoot(root, supply)
    ensures Sound(Imported(es, dir, root, supply).nodes) <==>
              GoodDrawsAll(es, Place(dir, root, 1), {}, Walked([root], false, 0), supply)
  {
    assert root.parentId != supply.ids(0);
    WalkIsSound(es, Place(dir, root, 1), 0, {}, Walked([root], false, 0), supply);
  }

  /** Where no directory holds 10000 entries, crossing leaves are the only harm. */
  lemma NarrowImportIsSound(es: seq<Entry>, dir: string, root: Node, supply: Supply)
    requires PlainSuffixes(supply) && DistinctIds(supply) && ImportedRoot(root, supply) && OutsideRoot(root, supply)
    requires NarrowAll(es) && |es| < MAX_COUNTER
    ensures var nodes := Imported(es, dir, root, supply).nodes;
            SiblingsDiffer(nodes) && NamesFit(nodes) &&
            (PathsDiffer(nodes) <==> UncrossedAll(es, Place(dir, root, 1), {}, Walked([root], false, 0), supply))
  {
    NarrowDrawsAll(es, Place(dir, root, 1), {}, Walked([root], false, 0), supply);
    WalkIsSoundFromRoot(es, dir, root, supply);
    ImportIsSoundExactly(es, dir, root, supply);
  }

  // ----- a folder and a file that share a path -----

  const FOLDER_A_X := Folder("a.x", true, [])
  const FILE_A := File("a", Info("", "x"), 1)

  lemma AskedForFolder()
    ensures AskedName(FOLDER_A_X) == "a.x" && Extension(FOLDER_A_X) == ""
  {
    IntactIsSafe("a.x");
  }

  lemma AskedForFile()
    ensures AskedName(FILE_A) == "a" && Extension(FILE_A) == "x"
  {
    IntactIsSafe("a");
    assert LowerChar('x') == 'x';
    assert Lower("x") == ['x'];
    assert NameAndExt("a") == ("a", "");
  }

  lemma BothAreFree(parentId: string)
    ensures Key(parentId, "a.x", "") != Key(parentId, "a", "x")
  {
    var short, long := Lower("a"), Lower("a.x");
    assert |short| == 1 && |long| == 3;
    if Key(parentId, "a", "x") == Key(parentId, "a.x", "") { KeyInjective(parentId, "a", "x", "a.x", ""); }
  }

  /** The place and the list before the two entries. */
  function AtRoot(dir: string, root: Node): Place {
    Place(dir, root, 1)
  }

  lemma FolderComesIn(dir: string, root: Node, supply: Supply) returns (n: Node)
    requires PlainSuffixes(supply) && ImportedRoot(root, supply) && |root.path| + 4 <= MAX_FILE_PATH
    ensures n.path == FilePath(root.path, "a.x")
    ensures WalkOne(FOLDER_A_X, AtRoot(dir, root), {}, Walked([root], false, 0), supply)
         == Walked([root] + [n], false, 0)
    ensures SeenAfter(FOLDER_A_X, AtRoot(dir, root), {}, 1, supply) == {Key(root.id, "a.x", "")}
  {
    AskedForFolder();
    ChildPathsExtend(root.path, "a.x");
    n := NodeOf(FOLDER_A_X, AtRoot(dir, root), {}, 1, supply);
    WalkedFolder(FOLDER_A_X, AtRoot(dir, root), {}, Walked([root], false, 0), supply);
  }

  lemma FileComesIn(dir: string, root: Node, nodes: seq<Node>, supply: Supply) returns (n: Node)
    requires PlainSuffixes(supply) && ImportedRoot(root, supply) && |root.path| + 4 <= MAX_FILE_PATH
    ensures n.path == FilePath(root.path, "a.x")
    ensures WalkOne(FILE_A, AtRoot(dir, root), {Key(root.id, "a.x", "")}, Walked(nodes, false, 0), supply)
         == Walked(nodes + [n], false, 0)
  {
    var seen := {Key(root.id, "a.x", "")};
    n := FileNode(dir, root, |nodes|, supply);
    ChildPathsExtend(root.path, "a.x");
    WalkedLeaf(FILE_A, AtRoot(dir, root), {Key(root.id, "a.x", "")}, Walked(nodes, false, 0), supply);
  }

  lemma FileNode(dir: string, root: Node, count: nat, supply: Supply) returns (n: Node)
    requires PlainSuffixes(supply)
    ensures n == NodeOf(FILE_A, AtRoot(dir, root), {Key(root.id, "a.x", "")}, count, supply)
    ensures n.path == FilePath(root.path, "a.x")
  {
    AskedForFile();
    BothAreFree(root.id);
    n := NodeOf(FILE_A, AtRoot(dir, root), {Key(root.id, "a.x", "")}, count, supply);
    assert Leaf("a", "x") == "a.x";
  }

  lemma WalkStep(e: Entry, rest: seq<Entry>, at: Place, seen: set<string>, w: Walked, supply: Supply)
    requires PlainSuffixes(supply) && |w.nodes| < MAX_ENTRIES
    ensures Walk([e] + rest, at, seen, w, supply)
         == Walk(rest, at, SeenAfter(e, at, seen, |w.nodes|, supply), WalkOne(e, at, seen, w, supply), supply)
  {
    Cons(e, rest);
  }

  lemma WalkTwo(first: Entry, second: Entry, at: Place, w: Walked, one: Walked, seen: set<string>, supply: Supply)
    requires PlainSuffixes(supply) && |w.nodes| < MAX_ENTRIES && |one.nodes| < MAX_ENTRIES
    requires one == WalkOne(first, at, {}, w, supply) && seen == SeenAfter(first, at, {}, |w.nodes|, supply)
    ensures Walk([first, second], at, {}, w, supply) == WalkOne(second, at, seen, one, supply)
  {
    WalkStep(first, [second], at, {}, w, supply);
    WalkStep(second, [], at, seen, one, supply);
    Unit([second]);
    assert [first] + [second] == [first, second];
  }

  lemma NarrowTwo()
    ensures NarrowAll([FOLDER_A_X, FILE_A])
  {
    Cons(FOLDER_A_X, [FILE_A]);
    Single(FILE_A);
    assert NarrowAll([]) && Narrow(FILE_A) && Narrow(FOLDER_A_X);
    assert NarrowAll([FILE_A]);
  }

  /**
   * A folder `a.x`, and a file `a` whose content is identified as `x`: each keeps the name it asked for,
   * and their paths are the same.
   */
  lemma FolderAndFileShareAPath(dir: string, root: Node, supply: Supply)
    requires PlainSuffixes(supply) && DistinctIds(supply) && ImportedRoot(root, supply) && OutsideRoot(root, supply)
    requires |root.path| + 4 <= MAX_FILE_PATH
    ensures var nodes := Imported([FOLDER_A_X, FILE_A], dir, root, supply).nodes;
            |nodes| == 3 && SiblingsDiffer(nodes) && NamesFit(nodes) && nodes[1].path == nodes[2].path &&
            !PathsDiffer(nodes)
  {
    NarrowTwo();
    NarrowImportIsSound([FOLDER_A_X, FILE_A], dir, root, supply);
    var folder := FolderComesIn(dir, root, supply);
    var file := FileComesIn(dir, root, [root] + [folder], supply);
    WalkTwo(FOLDER_A_X, FILE_A, AtRoot(dir, root), Walked([root], false, 0), Walked([root] + [folder], false, 0),
      {Key(root.id, "a.x", "")}, supply);
    SecondAndThird(root, folder, file);
  }

  lemma SecondAndThird(root: Node, folder: Node, file: Node)
    requires folder.path == file.path
    ensures var nodes := [root] + [folder] + [file];
            |nodes| == 3 && nodes[1].path == nodes[2].path && !PathsDiffer(nodes)
  {
    var nodes := [root] + [folder] + [file];
    assert nodes[1] == folder && nodes[2] == file;
  }

  /** Two files share a leaf where one is identified with a compound extension and the other is not. */
  lemma CompoundExtensionCrosses(n: Node, m: Node, inner: string)
    requires NoSlash(n.name) && NoSlash(inner) && m.ext != ""
    requires n.ext == inner + "." + m.ext && m.name == n.name + "." + inner
    ensures Cross(n, m) && Pair(n.name, n.ext) != Pair(m.name, m.ext)
  {
    assert Leaf(n.name, n.ext) == n.name + "." + (inner + "." + m.ext);
    Associative(n.name + ".", inner, "." + m.ext);
    Associative(inner, ".", m.ext);
    Associative(n.name + "." + inner, ".", m.ext);
    CrossingPassesTheKey(n, m);
  }
}
