/** The bounded depth-first walk that turns an extracted tree into nodes of the workspace. */
module ArchiveImport {
  import opened ArchiveNames
  import opened ArchivePaths

  const MAX_ENTRIES := 20000
  const EXTENSION_MAX := 16

  /** What content identification says about a file; empty strings where it says nothing. */
  datatype Info = Info(filename: string, extension: string)

  /** A directory entry as `lstat` sees it; `Gone` when `lstat` fails, `Special` for links and devices. */
  datatype Entry =
    | Folder(name: string, readable: bool, kids: seq<Entry>)
    | File(name: string, info: Info, size: nat)
    | Special(name: string)
    | Gone(name: string)

  datatype Node = Node(id: string, parentId: string, name: string, ext: string, folder: bool, size: nat,
                       lvl: nat, parentPath: string, path: string, source: string)

  /** The random ids: the k-th node's id, and the suffix drawn when it is the k-th node. */
  datatype Supply = Supply(ids: nat -> string, random: nat -> string)

  // ----- extensions -----

  function LastDot(s: string): (i: int)
    ensures -1 <= i < |s|
  {
    if s == [] then -1 else if s[|s| - 1] == '.' then |s| - 1 else LastDot(s[..|s| - 1])
  }

  /** `path.parse` cuts at the last dot, unless it leads the name. */
  function NameAndExt(name: string): (string, string) {
    if LastDot(name) <= 0 || name == ".." then (name, "")
    else (name[..LastDot(name)], name[LastDot(name) + 1..])
  }

  predicate AlphaNum(c: char) {
    'a' <= c <= 'z' || 'A' <= c <= 'Z' || '0' <= c <= '9'
  }

  /** Letters and digits joined by single dots, dashes or underscores. */
  predicate PlainExtension(s: string) {
    0 < |s| <= EXTENSION_MAX && AlphaNum(s[0]) && AlphaNum(s[|s| - 1]) &&
    (forall i :: 0 <= i < |s| ==> AlphaNum(s[i]) || s[i] == '.' || s[i] == '-' || s[i] == '_') &&
    (forall i :: 0 <= i < |s| - 1 ==> AlphaNum(s[i]) || AlphaNum(s[i + 1]))
  }

  function RawExtension(e: Entry): string {
    if !e.File? then ""
    else Lower(if e.info.extension != "" then e.info.extension else NameAndExt(e.name).1)
  }

  function Extension(e: Entry): (x: string)
    ensures NoSlash(x)
  {
    if PlainExtension(RawExtension(e)) then RawExtension(e) else ""
  }

  /** The name asked for: without the extension, unless the extension is dropped. */
  function AskedName(e: Entry): (name: string)
    ensures 0 < |name| <= MAX_FILENAME && NoSlash(name) && name != "." && name != ".."
  {
    SafeName(
      if !e.File? || (RawExtension(e) != "" && Extension(e) == "") then e.name
      else if e.info.filename != "" then e.info.filename
      else NameAndExt(e.name).0)
  }

  function Leaf(name: string, ext: string): string {
    if ext == "" then name else name + "." + ext
  }

  // ----- one node -----

  predicate Regular(e: Entry) {
    e.Folder? || e.File?
  }

  function ChosenName(e: Entry, parentId: string, seen: set<string>, random: string): string {
    UniqueName(seen, parentId, AskedName(e), Extension(e), random)
  }

  /** A chosen name is one component by itself: nothing it may end in makes it a dot name. */
  lemma ChosenNameIsPlain(seen: set<string>, parentId: string, name: string, ext: string, random: string)
    requires NoSlash(random) && NoSlash(name) && 0 < |name| <= MAX_FILENAME && name != "." && name != ".."
    ensures Component(UniqueName(seen, parentId, name, ext, random))
  {
    var chosen := UniqueName(seen, parentId, name, ext, random);
    if Exhausted(seen, parentId, name, ext) {
      assert chosen[|Stem(name)|] == '-';
    } else {
      UniqueNameIsFree(seen, parentId, name, ext, random);
      if chosen != name { assert chosen[|chosen| - 1] == ')'; }
    }
  }

  lemma LeafIsComponent(name: string, ext: string)
    requires Component(name) && NoSlash(ext)
    ensures Component(Leaf(name, ext))
  {
    if ext != "" { assert Leaf(name, ext)[|name|] == '.' && Leaf(name, ext)[..|name|] == name; }
  }

  lemma ChosenNameIsComponent(e: Entry, parentId: string, seen: set<string>, random: string)
    requires NoSlash(random)
    ensures NoSlash(ChosenName(e, parentId, seen, random))
    ensures Component(Leaf(ChosenName(e, parentId, seen, random), Extension(e)))
  {
    ChosenNameIsPlain(seen, parentId, AskedName(e), Extension(e), random);
    LeafIsComponent(ChosenName(e, parentId, seen, random), Extension(e));
  }

  /** The directory being walked, its node and the level of its entries. */
  datatype Place = Place(dir: string, parent: Node, lvl: nat)

  function NodeOf(e: Entry, at: Place, seen: set<string>, count: nat, supply: Supply): Node
    requires Regular(e) && NoSlash(supply.random(count))
  {
    ChosenNameIsComponent(e, at.parent.id, seen, supply.random(count));
    var name := ChosenName(e, at.parent.id, seen, supply.random(count));
    var leaf := Leaf(name, Extension(e));
    Node(supply.ids(count), at.parent.id, name, Extension(e), e.Folder?, if e.File? then e.size else 0, at.lvl,
      ParentPath(at.parent.path), FilePath(at.parent.path, leaf), if e.File? then at.dir + "/" + e.name else "")
  }

  // ----- the walk -----

  /** The nodes so far, whether the entry limit cut the import, and how many paths were too long. */
  datatype Walked = Walked(nodes: seq<Node>, truncated: bool, skipped: nat)

  ghost predicate PlainSuffixes(supply: Supply) {
    forall k :: NoSlash(supply.random(k))
  }

  ghost predicate DistinctIds(supply: Supply) {
    forall i, j :: supply.ids(i) == supply.ids(j) ==> i == j
  }

  /** The sibling keys after one entry. */
  function SeenAfter(e: Entry, at: Place, seen: set<string>, count: nat, supply: Supply): set<string> {
    if Regular(e) then
      seen + {Key(at.parent.id, ChosenName(e, at.parent.id, seen, supply.random(count)), Extension(e))}
    else seen
  }

  function WalkOne(e: Entry, at: Place, seen: set<string>, w: Walked, supply: Supply): Walked
    requires PlainSuffixes(supply)
    decreases e, 1
  {
    if !Regular(e) then w else WalkNode(e, at, NodeOf(e, at, seen, |w.nodes|, supply), w, supply)
  }

  /** The entry's node added, unless its path is too long, and what is below it. */
  function WalkNode(e: Entry, at: Place, node: Node, w: Walked, supply: Supply): Walked
    requires PlainSuffixes(supply)
    decreases e, 0
  {
    if |node.path| > MAX_FILE_PATH then w.(skipped := w.skipped + 1)
    else
      var added := w.(nodes := w.nodes + [node]);
      if e.Folder? && e.readable then Walk(e.kids, Place(at.dir + "/" + e.name, node, at.lvl + 1), {}, added, supply)
      else added
  }

  function Walk(es: seq<Entry>, at: Place, seen: set<string>, w: Walked, supply: Supply): Walked
    requires PlainSuffixes(supply)
    decreases es
  {
    if es == [] then w
    else if |w.nodes| >= MAX_ENTRIES then w.(truncated := true)
    else Walk(es[1..], at, SeenAfter(es[0], at, seen, |w.nodes|, supply), WalkOne(es[0], at, seen, w, supply), supply)
  }

  // ----- the node list is a tree -----

  predicate ChildOf(p: Node, n: Node) {
    p.folder && n.parentId == p.id && n.lvl == p.lvl + 1 && Component(Leaf(n.name, n.ext)) && NoSlash(n.name) &&
    n.parentPath == (if p.path == "/" then "/" else p.path + "/") &&
    n.path == n.parentPath + Leaf(n.name, n.ext) && |n.path| <= MAX_FILE_PATH
  }

  predicate HasParent(nodes: seq<Node>, i: int) {
    exists p :: 0 <= p < i < |nodes| && ChildOf(nodes[p], nodes[i])
  }

  /** One root, every other node placed after the folder it belongs to; the k-th node has the k-th id. */
  predicate Tree(nodes: seq<Node>, supply: Supply) {
    0 < |nodes| <= MAX_ENTRIES && nodes[0].folder &&
    (forall i :: 0 <= i < |nodes| ==> nodes[i].id == supply.ids(i) && Normal(nodes[i].path)) &&
    forall i :: 0 < i < |nodes| ==> HasParent(nodes, i)
  }

  lemma TreeGrows(nodes: seq<Node>, n: Node, p: nat, supply: Supply)
    requires Tree(nodes, supply) && |nodes| < MAX_ENTRIES && p < |nodes|
    requires ChildOf(nodes[p], n) && n.id == supply.ids(|nodes|) && Normal(n.path)
    ensures Tree(nodes + [n], supply)
  {
    var more := nodes + [n];
    forall i | 0 < i < |more| ensures HasParent(more, i) {
      if i < |nodes| {
        assert HasParent(nodes, i);
        var q :| 0 <= q < i < |nodes| && ChildOf(nodes[q], nodes[i]);
        assert ChildOf(more[q], more[i]);
      } else {
        assert ChildOf(more[p], more[i]);
      }
    }
  }

  predicate GoodPlace(at: Place, nodes: seq<Node>, p: nat) {
    p < |nodes| && nodes[p] == at.parent && at.parent.folder && at.lvl == at.parent.lvl + 1
  }

  lemma NodeIsChild(e: Entry, at: Place, seen: set<string>, count: nat, supply: Supply)
    requires Regular(e) && PlainSuffixes(supply)
    requires at.parent.folder && Normal(at.parent.path) && at.lvl == at.parent.lvl + 1
    ensures var n := NodeOf(e, at, seen, count, supply);
            Normal(n.path) && n.id == supply.ids(count) && (|n.path| <= MAX_FILE_PATH ==> ChildOf(at.parent, n))
  {
    ChosenNameIsComponent(e, at.parent.id, seen, supply.random(count));
    ChildPathsExtend(at.parent.path, Leaf(ChosenName(e, at.parent.id, seen, supply.random(count)), Extension(e)));
  }

  /** The node of an entry whose path fits joins the tree. */
  lemma NodeKeepsTree(e: Entry, at: Place, p: nat, seen: set<string>, nodes: seq<Node>, supply: Supply)
    requires PlainSuffixes(supply) && Tree(nodes, supply) && |nodes| < MAX_ENTRIES && GoodPlace(at, nodes, p)
    requires Regular(e) && |NodeOf(e, at, seen, |nodes|, supply).path| <= MAX_FILE_PATH
    ensures Tree(nodes + [NodeOf(e, at, seen, |nodes|, supply)], supply)
  {
    NodeIsChild(e, at, seen, |nodes|, supply);
    TreeGrows(nodes, NodeOf(e, at, seen, |nodes|, supply), p, supply);
  }

  lemma {:induction false} FolderKeepsTree(e: Entry, at: Place, p: nat, seen: set<string>, w: Walked, supply: Supply)
    requires PlainSuffixes(supply) && Tree(w.nodes, supply) && |w.nodes| < MAX_ENTRIES && GoodPlace(at, w.nodes, p)
    requires e.Folder? && e.readable && |NodeOf(e, at, seen, |w.nodes|, supply).path| <= MAX_FILE_PATH
    ensures var r := WalkOne(e, at, seen, w, supply);
            Tree(r.nodes, supply) && w.nodes <= r.nodes
    decreases e, 0
  {
    var node := NodeOf(e, at, seen, |w.nodes|, supply);
    NodeKeepsTree(e, at, p, seen, w.nodes, supply);
    WalkKeepsTree(e.kids, Place(at.dir + "/" + e.name, node, at.lvl + 1), |w.nodes|, {},
      w.(nodes := w.nodes + [node]), supply);
  }

  lemma {:induction false} EntryKeepsTree(e: Entry, at: Place, p: nat, seen: set<string>, w: Walked, supply: Supply)
    requires PlainSuffixes(supply) && Tree(w.nodes, supply) && |w.nodes| < MAX_ENTRIES && GoodPlace(at, w.nodes, p)
    ensures var r := WalkOne(e, at, seen, w, supply);
            Tree(r.nodes, supply) && w.nodes <= r.nodes
    decreases e, 1
  {
    if Regular(e) && |NodeOf(e, at, seen, |w.nodes|, supply).path| <= MAX_FILE_PATH {
      if e.Folder? && e.readable {
        FolderKeepsTree(e, at, p, seen, w, supply);
      } else {
        NodeKeepsTree(e, at, p, seen, w.nodes, supply);
      }
    }
  }

  /** Whatever the extracted tree, the nodes form a tree within the entry and path limits. */
  lemma {:induction false} WalkKeepsTree(es: seq<Entry>, at: Place, p: nat, seen: set<string>, w: Walked,
      supply: Supply)
    requires PlainSuffixes(supply) && Tree(w.nodes, supply) && GoodPlace(at, w.nodes, p)
    ensures var r := Walk(es, at, seen, w, supply);
            Tree(r.nodes, supply) && w.nodes <= r.nodes
    decreases es
  {
    if es != [] && |w.nodes| < MAX_ENTRIES {
      EntryKeepsTree(es[0], at, p, seen, w, supply);
      WalkKeepsTree(es[1..], at, p, SeenAfter(es[0], at, seen, |w.nodes|, supply),
        WalkOne(es[0], at, seen, w, supply), supply);
    }
  }
}
