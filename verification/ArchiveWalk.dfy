/** What the walk keeps apart, what it brings in, and the imperative walk itself. */
module ArchiveWalk {
  import opened Options
  import opened ArchiveNames
  import opened ArchivePaths
  import opened ArchiveImport
  import opened Sequences

  // ----- siblings differ under the database's collation -----

  /** No two nodes of one folder share name and extension up to case. */
  predicate SiblingsDiffer(nodes: seq<Node>) {
    forall i, k :: 0 <= i < k < |nodes| && nodes[i].parentId == nodes[k].parentId ==>
      Pair(nodes[i].name, nodes[i].ext) != Pair(nodes[k].name, nodes[k].ext)
  }

  predicate NamesFit(nodes: seq<Node>) {
    forall i :: 0 < i < |nodes| ==> 0 < |nodes[i].name| <= MAX_FILENAME
  }

  /** Every node already under `parentId` has its key among `seen`. */
  predicate AllSeen(nodes: seq<Node>, parentId: string, seen: set<string>) {
    forall i :: 0 <= i < |nodes| && nodes[i].parentId == parentId ==> Key(parentId, nodes[i].name, nodes[i].ext) in seen
  }

  /** The root's own folder is outside the import. */
  ghost predicate OutsideRoot(root: Node, supply: Supply) {
    forall k :: root.parentId != supply.ids(k)
  }

  /** Nodes from `start` on hang off `parentId` or off one another. */
  predicate NewUnder(nodes: seq<Node>, start: nat, parentId: string, supply: Supply) {
    forall i :: start <= i < |nodes| ==>
      nodes[i].parentId == parentId || exists j :: start <= j < i && nodes[i].parentId == supply.ids(j)
  }

  lemma {:induction false} FolderAddsUnder(e: Entry, at: Place, seen: set<string>, w: Walked, supply: Supply)
    requires PlainSuffixes(supply) && e.Folder? && e.readable
    requires |NodeOf(e, at, seen, |w.nodes|, supply).path| <= MAX_FILE_PATH
    ensures var r := WalkOne(e, at, seen, w, supply);
            w.nodes <= r.nodes && NewUnder(r.nodes, |w.nodes|, at.parent.id, supply)
    decreases e, 0
  {
    var node := NodeOf(e, at, seen, |w.nodes|, supply);
    var added := w.nodes + [node];
    WalkAddsUnder(e.kids, Place(at.dir + "/" + e.name, node, at.lvl + 1), {}, w.(nodes := added), supply);
    WalkedFolder(e, at, seen, w, supply);
    UnderFolder(w.nodes, node, WalkOne(e, at, seen, w, supply).nodes, supply);
  }

  /** What hangs off a new folder, or off what hangs there, hangs off the folder's parent. */
  lemma UnderFolder(was: seq<Node>, node: Node, nodes: seq<Node>, supply: Supply)
    requires was + [node] <= nodes && node.id == supply.ids(|was|)
    requires NewUnder(nodes, |was| + 1, node.id, supply)
    ensures NewUnder(nodes, |was|, node.parentId, supply)
  {
    forall i | |was| <= i < |nodes|
      ensures nodes[i].parentId == node.parentId ||
              exists j :: |was| <= j < i && nodes[i].parentId == supply.ids(j)
    {
      if i == |was| {
        assert nodes[i] == (was + [node])[i] == node;
      } else if nodes[i].parentId == node.id {
        assert nodes[i].parentId == supply.ids(|was|);
      }
    }
  }

  lemma {:induction false} EntryAddsUnder(e: Entry, at: Place, seen: set<string>, w: Walked, supply: Supply)
    requires PlainSuffixes(supply)
    ensures var r := WalkOne(e, at, seen, w, supply);
            w.nodes <= r.nodes && NewUnder(r.nodes, |w.nodes|, at.parent.id, supply)
    decreases e, 1
  {
    if e.Folder? && e.readable && |NodeOf(e, at, seen, |w.nodes|, supply).path| <= MAX_FILE_PATH {
      FolderAddsUnder(e, at, seen, w, supply);
    }
  }

  lemma {:induction false} WalkAddsUnder(es: seq<Entry>, at: Place, seen: set<string>, w: Walked, supply: Supply)
    requires PlainSuffixes(supply)
    ensures var r := Walk(es, at, seen, w, supply);
            w.nodes <= r.nodes && NewUnder(r.nodes, |w.nodes|, at.parent.id, supply)
    decreases es
  {
    if es != [] && |w.nodes| < MAX_ENTRIES {
      var one := WalkOne(es[0], at, seen, w, supply);
      EntryAddsUnder(es[0], at, seen, w, supply);
      WalkAddsUnder(es[1..], at, SeenAfter(es[0], at, seen, |w.nodes|, supply), one, supply);
      var r := Walk(es, at, seen, w, supply);
      forall i | |w.nodes| <= i < |r.nodes|
        ensures r.nodes[i].parentId == at.parent.id ||
                exists j :: |w.nodes| <= j < i && r.nodes[i].parentId == supply.ids(j)
      {
        if i < |one.nodes| { assert r.nodes[i] == one.nodes[i]; }
      }
    }
  }

  /** A parent id names the root's own folder or an earlier node. */
  lemma ParentsAreEarlier(nodes: seq<Node>, k: nat, supply: Supply)
    requires Tree(nodes, supply) && DistinctIds(supply) && OutsideRoot(nodes[0], supply) && k >= |nodes|
    ensures forall i :: 0 <= i < |nodes| ==> nodes[i].parentId != supply.ids(k)
  {
    forall i | 0 <= i < |nodes| ensures nodes[i].parentId != supply.ids(k) {
      if i > 0 {
        assert HasParent(nodes, i);
        var p :| 0 <= p < i < |nodes| && ChildOf(nodes[p], nodes[i]);
        assert nodes[i].parentId == supply.ids(p);
      }
    }
  }

  lemma WalkedNode(e: Entry, at: Place, node: Node, w: Walked, supply: Supply)
    requires PlainSuffixes(supply) && e.Folder? && e.readable && |node.path| <= MAX_FILE_PATH
    ensures WalkNode(e, at, node, w, supply)
         == Walk(e.kids, Place(at.dir + "/" + e.name, node, at.lvl + 1), {}, w.(nodes := w.nodes + [node]), supply)
  {
  }

  lemma WalkedFolder(e: Entry, at: Place, seen: set<string>, w: Walked, supply: Supply)
    requires PlainSuffixes(supply) && e.Folder? && e.readable
    ensures var node := NodeOf(e, at, seen, |w.nodes|, supply);
            |node.path| <= MAX_FILE_PATH ==>
              WalkOne(e, at, seen, w, supply)
                == Walk(e.kids, Place(at.dir + "/" + e.name, node, at.lvl + 1), {}, w.(nodes := w.nodes + [node]),
                  supply)
  {
    var node := NodeOf(e, at, seen, |w.nodes|, supply);
    if |node.path| <= MAX_FILE_PATH { WalkedNode(e, at, node, w, supply); }
  }

  lemma WalkedLeaf(e: Entry, at: Place, seen: set<string>, w: Walked, supply: Supply)
    requires PlainSuffixes(supply) && Regular(e)
    ensures var node := NodeOf(e, at, seen, |w.nodes|, supply);
            (|node.path| > MAX_FILE_PATH ==> WalkOne(e, at, seen, w, supply) == w.(skipped := w.skipped + 1)) &&
            (|node.path| <= MAX_FILE_PATH && !(e.Folder? && e.readable) ==>
               WalkOne(e, at, seen, w, supply) == w.(nodes := w.nodes + [node]))
  {
  }

  /** What holds when the loop of a directory stands before an entry. */
  ghost predicate Ready(nodes: seq<Node>, at: Place, p: nat, seen: set<string>, supply: Supply) {
    PlainSuffixes(supply) && DistinctIds(supply) && Tree(nodes, supply) && OutsideRoot(nodes[0], supply) &&
    GoodPlace(at, nodes, p) && AllSeen(nodes, at.parent.id, seen)
  }

  lemma SeenGrows(nodes: seq<Node>, n: Node, parentId: string, seen: set<string>, more: set<string>)
    requires AllSeen(nodes, parentId, seen) && seen <= more
    requires n.parentId == parentId ==> Key(parentId, n.name, n.ext) in more
    ensures AllSeen(nodes + [n], parentId, more) && AllSeen(nodes, parentId, more)
  {
  }

  function Below(e: Entry, at: Place, node: Node): Place {
    Place(at.dir + "/" + e.name, node, at.lvl + 1)
  }

  /** With its new node added, the directory goes on. */
  lemma NodeKeepsReady(e: Entry, at: Place, p: nat, seen: set<string>, nodes: seq<Node>, supply: Supply)
    requires Ready(nodes, at, p, seen, supply) && |nodes| < MAX_ENTRIES
    requires Regular(e) && |NodeOf(e, at, seen, |nodes|, supply).path| <= MAX_FILE_PATH
    ensures Ready(nodes + [NodeOf(e, at, seen, |nodes|, supply)], at, p, SeenAfter(e, at, seen, |nodes|, supply),
              supply)
  {
    var node := NodeOf(e, at, seen, |nodes|, supply);
    NodeKeepsTree(e, at, p, seen, nodes, supply);
    SeenGrows(nodes, node, at.parent.id, seen, SeenAfter(e, at, seen, |nodes|, supply));
  }

  /** The new folder is ready to be walked itself: nothing hangs off it yet. */
  lemma FolderIsReady(e: Entry, at: Place, p: nat, seen: set<string>, nodes: seq<Node>, supply: Supply)
    requires Ready(nodes, at, p, seen, supply) && |nodes| < MAX_ENTRIES
    requires e.Folder? && |NodeOf(e, at, seen, |nodes|, supply).path| <= MAX_FILE_PATH
    ensures var node := NodeOf(e, at, seen, |nodes|, supply);
            Ready(nodes + [node], Below(e, at, node), |nodes|, {}, supply)
  {
    var node := NodeOf(e, at, seen, |nodes|, supply);
    NodeKeepsTree(e, at, p, seen, nodes, supply);
    ParentsAreEarlier(nodes, |nodes|, supply);
    assert node.parentId == supply.ids(p);
    SeenGrows(nodes, node, node.id, {}, {});
  }

  /** Nodes added inside a subfolder are not siblings of the folder. */
  lemma KidsStayBelow(nodes: seq<Node>, start: nat, at: Place, p: nat, below: string, seen: set<string>, supply: Supply)
    requires DistinctIds(supply) && p < start - 1 && start <= |nodes| && at.parent.id == supply.ids(p)
    requires below == supply.ids(start - 1) && NewUnder(nodes, start, below, supply)
    requires AllSeen(nodes[..start], at.parent.id, seen)
    ensures AllSeen(nodes, at.parent.id, seen)
  {
    forall i | 0 <= i < |nodes| && nodes[i].parentId == at.parent.id
      ensures Key(at.parent.id, nodes[i].name, nodes[i].ext) in seen
    {
      assert i < start;
      assert nodes[..start][i] == nodes[i];
    }
  }

  /** Walking a subfolder whose node was just added leaves the directory ready. */
  lemma KidsKeepReady(kids: seq<Entry>, below: Place, at: Place, p: nat, seen: set<string>, added: Walked,
      supply: Supply)
    requires p < |added.nodes| - 1 && Ready(added.nodes, at, p, seen, supply)
    requires GoodPlace(below, added.nodes, |added.nodes| - 1)
    ensures Ready(Walk(kids, below, {}, added, supply).nodes, at, p, seen, supply)
  {
    var nodes := Walk(kids, below, {}, added, supply).nodes;
    WalkKeepsTree(kids, below, |added.nodes| - 1, {}, added, supply);
    WalkAddsUnder(kids, below, {}, added, supply);
    assert nodes[..|added.nodes|] == added.nodes;
    KidsStayBelow(nodes, |added.nodes|, at, p, supply.ids(|added.nodes| - 1), seen, supply);
  }

  /** An entry that adds no node. */
  lemma SkippedKeepsReady(e: Entry, at: Place, p: nat, seen: set<string>, w: Walked, supply: Supply)
    requires Ready(w.nodes, at, p, seen, supply)
    requires Regular(e) ==> |NodeOf(e, at, seen, |w.nodes|, supply).path| > MAX_FILE_PATH
    ensures WalkOne(e, at, seen, w, supply).nodes == w.nodes
    ensures Ready(w.nodes, at, p, SeenAfter(e, at, seen, |w.nodes|, supply), supply)
  {
  }

  lemma FolderKeepsReady(e: Entry, at: Place, p: nat, seen: set<string>, w: Walked, supply: Supply)
    requires Ready(w.nodes, at, p, seen, supply) && |w.nodes| < MAX_ENTRIES
    requires e.Folder? && e.readable && |NodeOf(e, at, seen, |w.nodes|, supply).path| <= MAX_FILE_PATH
    ensures Ready(WalkOne(e, at, seen, w, supply).nodes, at, p, SeenAfter(e, at, seen, |w.nodes|, supply), supply)
  {
    var node := NodeOf(e, at, seen, |w.nodes|, supply);
    NodeKeepsReady(e, at, p, seen, w.nodes, supply);
    KidsKeepReady(e.kids, Below(e, at, node), at, p, SeenAfter(e, at, seen, |w.nodes|, supply),
      w.(nodes := w.nodes + [node]), supply);
    WalkedFolder(e, at, seen, w, supply);
  }

  lemma EntryKeepsReady(e: Entry, at: Place, p: nat, seen: set<string>, w: Walked, supply: Supply)
    requires Ready(w.nodes, at, p, seen, supply) && |w.nodes| < MAX_ENTRIES
    ensures Ready(WalkOne(e, at, seen, w, supply).nodes, at, p, SeenAfter(e, at, seen, |w.nodes|, supply), supply)
  {
    if !Regular(e) || |NodeOf(e, at, seen, |w.nodes|, supply).path| > MAX_FILE_PATH {
      SkippedKeepsReady(e, at, p, seen, w, supply);
    } else if e.Folder? && e.readable {
      FolderKeepsReady(e, at, p, seen, w, supply);
    } else {
      NodeKeepsReady(e, at, p, seen, w.nodes, supply);
      WalkedLeaf(e, at, seen, w, supply);
    }
  }

  /** An entry that is neither file nor directory leaves no trace, not even a taken name. */
  lemma IrregularIsPassedOver(e: Entry, rest: seq<Entry>, at: Place, seen: set<string>, w: Walked, supply: Supply)
    requires PlainSuffixes(supply) && (e.Special? || e.Gone?) && |w.nodes| < MAX_ENTRIES
    ensures Walk([e] + rest, at, seen, w, supply) == Walk(rest, at, seen, w, supply)
  {
    Cons(e, rest);
  }

  /** A directory is cut only at 20000 nodes, and then the import is marked as cut. */
  lemma CutExactly(e: Entry, rest: seq<Entry>, at: Place, seen: set<string>, w: Walked, supply: Supply)
    requires PlainSuffixes(supply) && |w.nodes| >= 20000
    ensures Walk([e] + rest, at, seen, w, supply) == w.(truncated := true)
    ensures Walk([], at, seen, w, supply) == w
  {
    Cons(e, rest);
  }

  // ----- exactly when siblings keep apart and names fit -----

  /** Siblings apart under the key of parent, name and extension, and names within their column. */
  predicate Sound(nodes: seq<Node>) {
    SiblingsDiffer(nodes) && NamesFit(nodes)
  }

  /** An imported node already has this key. */
  predicate Held(nodes: seq<Node>, parentId: string, key: string) {
    exists i :: 0 <= i < |nodes| && nodes[i].parentId == parentId && Key(parentId, nodes[i].name, nodes[i].ext) == key
  }

  /** If an entry must draw a random suffix, the suffix leaves room and no imported sibling has it yet. */
  predicate GoodDraw(e: Entry, at: Place, seen: set<string>, nodes: seq<Node>, random: string) {
    var name, ext := AskedName(e), Extension(e);
    Exhausted(seen, at.parent.id, name, ext) ==>
      |Stem(name)| + 1 + |random| <= MAX_FILENAME &&
      !Held(nodes, at.parent.id, Key(at.parent.id, Stem(name) + "-" + random, ext))
  }

  /** Eight hexadecimal digits leave room only after names shorter than 120 characters. */
  lemma EightDigitsFit(e: Entry, at: Place, seen: set<string>, nodes: seq<Node>, random: string)
    requires |random| == 8 && Exhausted(seen, at.parent.id, AskedName(e), Extension(e))
    ensures GoodDraw(e, at, seen, nodes, random) <==>
              |AskedName(e)| < MAX_FILENAME - SUFFIX_ROOM &&
              !Held(nodes, at.parent.id, Key(at.parent.id, AskedName(e) + "-" + random, Extension(e)))
  {
  }

  ghost predicate GoodDraws(e: Entry, at: Place, seen: set<string>, w: Walked, supply: Supply)
    requires PlainSuffixes(supply)
    decreases e
  {
    Regular(e) ==>
      var node := NodeOf(e, at, seen, |w.nodes|, supply);
      |node.path| <= MAX_FILE_PATH ==>
        GoodDraw(e, at, seen, w.nodes, supply.random(|w.nodes|)) &&
        (e.Folder? && e.readable ==>
           GoodDrawsAll(e.kids, Below(e, at, node), {}, w.(nodes := w.nodes + [node]), supply))
  }

  /** Every random suffix the walk draws for a node is a good one. */
  ghost predicate GoodDrawsAll(es: seq<Entry>, at: Place, seen: set<string>, w: Walked, supply: Supply)
    requires PlainSuffixes(supply)
    decreases es
  {
    es != [] && |w.nodes| < MAX_ENTRIES ==>
      GoodDraws(es[0], at, seen, w, supply) &&
      GoodDrawsAll(es[1..], at, SeenAfter(es[0], at, seen, |w.nodes|, supply), WalkOne(es[0], at, seen, w, supply),
        supply)
  }

  lemma DifferOneMore(nodes: seq<Node>, n: Node)
    ensures SiblingsDiffer(nodes + [n]) <==>
              SiblingsDiffer(nodes) && !Held(nodes, n.parentId, Key(n.parentId, n.name, n.ext))
  {
    var more, key := nodes + [n], Key(n.parentId, n.name, n.ext);
    assert more[|nodes|] == n && forall i :: 0 <= i < |nodes| ==> more[i] == nodes[i];
    if Held(nodes, n.parentId, key) {
      var i :| 0 <= i < |nodes| && nodes[i].parentId == n.parentId &&
        Key(n.parentId, nodes[i].name, nodes[i].ext) == key;
      SamePrefix(n.parentId + "/", Pair(nodes[i].name, nodes[i].ext), Pair(n.name, n.ext));
      assert more[i].parentId == more[|nodes|].parentId;
    }
    if SiblingsDiffer(nodes) && !Held(nodes, n.parentId, key) {
      forall i, k | 0 <= i < k < |more| && more[i].parentId == more[k].parentId
        ensures Pair(more[i].name, more[i].ext) != Pair(more[k].name, more[k].ext)
      {
        if k == |nodes| { assert Key(n.parentId, nodes[i].name, nodes[i].ext) != key; }
      }
    }
  }

  lemma FitOneMore(nodes: seq<Node>, n: Node)
    requires nodes != []
    ensures NamesFit(nodes + [n]) <==> NamesFit(nodes) && 0 < |n.name| <= MAX_FILENAME
  {
    var more := nodes + [n];
    assert more[|nodes|] == n && forall i :: 0 <= i < |nodes| ==> more[i] == nodes[i];
    if NamesFit(more) {
      forall i | 0 < i < |nodes| ensures 0 < |nodes[i].name| <= MAX_FILENAME { assert more[i] == nodes[i]; }
    }
  }

  /** The chosen name fits and is free exactly when the draw, if there is one, is good. */
  lemma DrawIsGood(e: Entry, at: Place, seen: set<string>, nodes: seq<Node>, supply: Supply)
    requires PlainSuffixes(supply) && Regular(e) && AllSeen(nodes, at.parent.id, seen)
    ensures var n := NodeOf(e, at, seen, |nodes|, supply);
            0 < |n.name| &&
            (GoodDraw(e, at, seen, nodes, supply.random(|nodes|)) <==>
               |n.name| <= MAX_FILENAME && !Held(nodes, at.parent.id, Key(at.parent.id, n.name, n.ext)))
  {
    var name, ext, random := AskedName(e), Extension(e), supply.random(|nodes|);
    UniqueNameFitsExactly(seen, at.parent.id, name, ext, random);
    if !Exhausted(seen, at.parent.id, name, ext) {
      UniqueNameIsFree(seen, at.parent.id, name, ext, random);
    }
  }

  /** A node added to sound rows leaves them sound exactly when its draw was good. */
  lemma NodeIsSound(e: Entry, at: Place, seen: set<string>, nodes: seq<Node>, supply: Supply)
    requires PlainSuffixes(supply) && Regular(e) && AllSeen(nodes, at.parent.id, seen) && nodes != []
    ensures Sound(nodes + [NodeOf(e, at, seen, |nodes|, supply)]) <==>
              Sound(nodes) && GoodDraw(e, at, seen, nodes, supply.random(|nodes|))
  {
    var n := NodeOf(e, at, seen, |nodes|, supply);
    DrawIsGood(e, at, seen, nodes, supply);
    DifferOneMore(nodes, n);
    FitOneMore(nodes, n);
  }

  lemma {:induction false} FolderIsSound(e: Entry, at: Place, p: nat, seen: set<string>, w: Walked, supply: Supply)
    requires Ready(w.nodes, at, p, seen, supply) && |w.nodes| < MAX_ENTRIES
    requires e.Folder? && e.readable && |NodeOf(e, at, seen, |w.nodes|, supply).path| <= MAX_FILE_PATH
    ensures Sound(WalkOne(e, at, seen, w, supply).nodes) <==> Sound(w.nodes) && GoodDraws(e, at, seen, w, supply)
    decreases e, 0
  {
    var node := NodeOf(e, at, seen, |w.nodes|, supply);
    NodeIsSound(e, at, seen, w.nodes, supply);
    FolderIsReady(e, at, p, seen, w.nodes, supply);
    WalkIsSound(e.kids, Below(e, at, node), |w.nodes|, {}, w.(nodes := w.nodes + [node]), supply);
    WalkedFolder(e, at, seen, w, supply);
  }

  lemma {:induction false} EntryIsSound(e: Entry, at: Place, p: nat, seen: set<string>, w: Walked, supply: Supply)
    requires Ready(w.nodes, at, p, seen, supply) && |w.nodes| < MAX_ENTRIES
    ensures Sound(WalkOne(e, at, seen, w, supply).nodes) <==> Sound(w.nodes) && GoodDraws(e, at, seen, w, supply)
    decreases e, 1
  {
    if !Regular(e) || |NodeOf(e, at, seen, |w.nodes|, supply).path| > MAX_FILE_PATH {
      SkippedKeepsReady(e, at, p, seen, w, supply);
    } else if e.Folder? && e.readable {
      FolderIsSound(e, at, p, seen, w, supply);
    } else {
      NodeIsSound(e, at, seen, w.nodes, supply);
      WalkedLeaf(e, at, seen, w, supply);
    }
  }

  /** Whatever the tree, the walk keeps rows sound exactly when its random suffixes are good. */
  lemma {:induction false} WalkIsSound(es: seq<Entry>, at: Place, p: nat, seen: set<string>, w: Walked, supply: Supply)
    requires Ready(w.nodes, at, p, seen, supply)
    ensures Sound(Walk(es, at, seen, w, supply).nodes) <==> Sound(w.nodes) && GoodDrawsAll(es, at, seen, w, supply)
    decreases es
  {
    if es != [] && |w.nodes| < MAX_ENTRIES {
      EntryIsSound(es[0], at, p, seen, w, supply);
      EntryKeepsReady(es[0], at, p, seen, w, supply);
      WalkIsSound(es[1..], at, p, SeenAfter(es[0], at, seen, |w.nodes|, supply), WalkOne(es[0], at, seen, w, supply),
        supply);
    }
  }

  /** No directory holds enough entries to exhaust the numbered names. */
  predicate Narrow(e: Entry)
    decreases e
  {
    e.Folder? ==> NarrowAll(e.kids) && |e.kids| < MAX_COUNTER
  }

  predicate NarrowAll(es: seq<Entry>)
    decreases es
  {
    es == [] || (Narrow(es[0]) && NarrowAll(es[1..]))
  }

  lemma NarrowDraw(e: Entry, at: Place, seen: set<string>, nodes: seq<Node>, random: string)
    requires |seen| < MAX_COUNTER - 1
    ensures GoodDraw(e, at, seen, nodes, random)
  {
    if Exhausted(seen, at.parent.id, AskedName(e), Extension(e)) {
      ExhaustedNeedsManySiblings(seen, at.parent.id, AskedName(e), Extension(e));
    }
  }

  lemma {:induction false} NarrowDraws(e: Entry, at: Place, seen: set<string>, w: Walked, supply: Supply)
    requires PlainSuffixes(supply) && Narrow(e) && |seen| < MAX_COUNTER - 1
    ensures GoodDraws(e, at, seen, w, supply)
    decreases e
  {
    if Regular(e) {
      var node := NodeOf(e, at, seen, |w.nodes|, supply);
      NarrowDraw(e, at, seen, w.nodes, supply.random(|w.nodes|));
      if e.Folder? && e.readable {
        NarrowDrawsAll(e.kids, Below(e, at, node), {}, w.(nodes := w.nodes + [node]), supply);
      }
    }
  }

  /** Where no directory is that full, no suffix is ever drawn. */
  lemma {:induction false} NarrowDrawsAll(es: seq<Entry>, at: Place, seen: set<string>, w: Walked, supply: Supply)
    requires PlainSuffixes(supply) && NarrowAll(es) && |seen| + |es| < MAX_COUNTER
    ensures GoodDrawsAll(es, at, seen, w, supply)
    decreases es
  {
    if es != [] && |w.nodes| < MAX_ENTRIES {
      NarrowDraws(es[0], at, seen, w, supply);
      NarrowDrawsAll(es[1..], at, SeenAfter(es[0], at, seen, |w.nodes|, supply), WalkOne(es[0], at, seen, w, supply),
        supply);
    }
  }

  // ----- what the walk brings in -----

  /** A file on disk, and its size. */
  datatype Found = Found(path: string, size: nat)

  /** The regular files below an entry, depth first. */
  function FilesIn(e: Entry, dir: string): seq<Found>
    decreases e
  {
    match e
    case File(name, _, size) => [Found(dir + "/" + name, size)]
    case Folder(name, readable, kids) => if readable then FilesInAll(kids, dir + "/" + name) else []
    case _ => []
  }

  function FilesInAll(es: seq<Entry>, dir: string): seq<Found>
    decreases es
  {
    if es == [] then [] else FilesIn(es[0], dir) + FilesInAll(es[1..], dir)
  }

  /** How many files and folders an entry stands for. */
  function RegularCount(e: Entry): nat
    decreases e
  {
    if e.File? then 1 else if e.Folder? then 1 + (if e.readable then RegularCountAll(e.kids) else 0) else 0
  }

  function RegularCountAll(es: seq<Entry>): nat
    decreases es
  {
    if es == [] then 0 else RegularCount(es[0]) + RegularCountAll(es[1..])
  }

  /** The files of a node list, in order. */
  function Sources(nodes: seq<Node>): seq<Found> {
    if nodes == [] then []
    else Sources(nodes[..|nodes| - 1]) +
         (if nodes[|nodes| - 1].folder then [] else [Found(nodes[|nodes| - 1].source, nodes[|nodes| - 1].size)])
  }

  lemma SourcesOfOne(nodes: seq<Node>, n: Node)
    ensures Sources(nodes + [n]) == Sources(nodes) + (if n.folder then [] else [Found(n.source, n.size)])
  {
    LastOf(nodes, n);
  }

  /** `xs` is `ys` with some elements left out. */
  predicate Subsequence(xs: seq<Found>, ys: seq<Found>)
    decreases ys
  {
    xs == [] || (ys != [] && ((xs[0] == ys[0] && Subsequence(xs[1..], ys[1..])) || Subsequence(xs, ys[1..])))
  }

  lemma {:induction false} SubsequenceConcat(a: seq<Found>, b: seq<Found>, c: seq<Found>, d: seq<Found>)
    requires Subsequence(a, b) && Subsequence(c, d)
    ensures Subsequence(a + c, b + d)
    decreases b
  {
    if b == [] {
      assert a + c == c && b + d == d;
    } else {
      HeadOf(b, d);
      if a == [] {
        SubsequenceConcat(a, b[1..], c, d);
        assert a + c == c;
      } else if a[0] == b[0] && Subsequence(a[1..], b[1..]) {
        HeadOf(a, c);
        SubsequenceConcat(a[1..], b[1..], c, d);
      } else {
        SubsequenceConcat(a, b[1..], c, d);
      }
    }
  }

  /** `r` brings in `files` after `w`: some of them in order, or all when nothing was cut or skipped. */
  ghost predicate Brings(w: Walked, r: Walked, files: seq<Found>, count: nat) {
    w.skipped <= r.skipped && (w.truncated ==> r.truncated) &&
    (!r.truncated && r.skipped == w.skipped ==>
       Sources(r.nodes) == Sources(w.nodes) + files && |r.nodes| == |w.nodes| + count) &&
    exists added :: Sources(r.nodes) == Sources(w.nodes) + added && Subsequence(added, files)
  }

  lemma BringsNothing(w: Walked, r: Walked, files: seq<Found>, count: nat)
    requires r.nodes == w.nodes && w.skipped <= r.skipped && (w.truncated ==> r.truncated)
    requires !r.truncated && r.skipped == w.skipped ==> files == [] && count == 0
    ensures Brings(w, r, files, count)
  {
    assert Sources(r.nodes) == Sources(w.nodes) + [];
  }

  lemma BringsBoth(w: Walked, m: Walked, r: Walked, fs: seq<Found>, gs: seq<Found>, i: nat, j: nat)
    requires Brings(w, m, fs, i) && Brings(m, r, gs, j)
    ensures Brings(w, r, fs + gs, i + j)
  {
    var a :| Sources(m.nodes) == Sources(w.nodes) + a && Subsequence(a, fs);
    var b :| Sources(r.nodes) == Sources(m.nodes) + b && Subsequence(b, gs);
    SubsequenceConcat(a, fs, b, gs);
    assert Sources(r.nodes) == Sources(w.nodes) + (a + b);
    assert Sources(w.nodes) + (fs + gs) == Sources(w.nodes) + fs + gs;
  }

  /** A single node brings in its own file, or nothing when it is a folder. */
  lemma NodeBrings(w: Walked, node: Node, own: seq<Found>)
    requires own == if node.folder then [] else [Found(node.source, node.size)]
    ensures Brings(w, w.(nodes := w.nodes + [node]), own, 1)
  {
    SourcesOfOne(w.nodes, node);
    assert Subsequence(own, own);
  }

  lemma {:induction false} FolderBrings(e: Entry, at: Place, seen: set<string>, w: Walked, supply: Supply)
    requires PlainSuffixes(supply) && e.Folder? && e.readable
    requires |NodeOf(e, at, seen, |w.nodes|, supply).path| <= MAX_FILE_PATH
    ensures Brings(w, WalkOne(e, at, seen, w, supply), FilesIn(e, at.dir), RegularCount(e))
    decreases e, 0
  {
    var node := NodeOf(e, at, seen, |w.nodes|, supply);
    var added := w.(nodes := w.nodes + [node]);
    NodeBrings(w, node, []);
    WalkBrings(e.kids, Place(at.dir + "/" + e.name, node, at.lvl + 1), {}, added, supply);
    WalkedFolder(e, at, seen, w, supply);
    BringsBoth(w, added, WalkOne(e, at, seen, w, supply), [], FilesIn(e, at.dir), 1, RegularCountAll(e.kids));
    Unit(FilesIn(e, at.dir));
  }

  lemma {:induction false} EntryBrings(e: Entry, at: Place, seen: set<string>, w: Walked, supply: Supply)
    requires PlainSuffixes(supply)
    ensures Brings(w, WalkOne(e, at, seen, w, supply), FilesIn(e, at.dir), RegularCount(e))
    decreases e, 1
  {
    if Regular(e) { WalkedLeaf(e, at, seen, w, supply); }
    if !Regular(e) || |NodeOf(e, at, seen, |w.nodes|, supply).path| > MAX_FILE_PATH {
      BringsNothing(w, WalkOne(e, at, seen, w, supply), FilesIn(e, at.dir), RegularCount(e));
    } else if e.Folder? && e.readable {
      FolderBrings(e, at, seen, w, supply);
    } else {
      NodeBrings(w, NodeOf(e, at, seen, |w.nodes|, supply), FilesIn(e, at.dir));
    }
  }

  /** Files come in once each, in depth-first order; all of them unless a warning says otherwise. */
  lemma {:induction false} WalkBrings(es: seq<Entry>, at: Place, seen: set<string>, w: Walked, supply: Supply)
    requires PlainSuffixes(supply)
    ensures Brings(w, Walk(es, at, seen, w, supply), FilesInAll(es, at.dir), RegularCountAll(es))
    decreases es
  {
    var r := Walk(es, at, seen, w, supply);
    if es == [] || |w.nodes| >= MAX_ENTRIES {
      BringsNothing(w, r, FilesInAll(es, at.dir), RegularCountAll(es));
    } else {
      var one := WalkOne(es[0], at, seen, w, supply);
      EntryBrings(es[0], at, seen, w, supply);
      WalkBrings(es[1..], at, SeenAfter(es[0], at, seen, |w.nodes|, supply), one, supply);
      BringsBoth(w, one, r, FilesIn(es[0], at.dir), FilesInAll(es[1..], at.dir),
        RegularCount(es[0]), RegularCountAll(es[1..]));
    }
  }

  // ----- the whole import -----

  predicate Wrapped(entries: seq<Entry>) {
    |entries| == 1 && entries[0].Folder?
  }

  /** A single top-level directory is imported as its contents, anything else as it is. */
  function ImportRoot(entries: seq<Entry>, dir: string): Option<(seq<Entry>, string)> {
    if entries == [] then None
    else if Wrapped(entries) then
      Some((if entries[0].readable then entries[0].kids else [], dir + "/" + entries[0].name))
    else Some((entries, dir))
  }

  /** Leaving out the one top-level directory brings in the same files, and one folder less. */
  lemma ImportRootKeepsFiles(entries: seq<Entry>, dir: string)
    requires entries != []
    ensures ImportRoot(entries, dir).Some?
    ensures var r := ImportRoot(entries, dir).value;
            FilesInAll(r.0, r.1) == FilesInAll(entries, dir) &&
            RegularCountAll(r.0) == RegularCountAll(entries) - (if Wrapped(entries) then 1 else 0)
  {
    if Wrapped(entries) {
      assert entries[1..] == [];
      assert FilesInAll(entries, dir) == FilesIn(entries[0], dir) + [];
    }
  }

  predicate ImportedRoot(root: Node, supply: Supply) {
    root.folder && root.lvl == 0 && root.id == supply.ids(0) && Normal(root.path)
  }

  function Imported(es: seq<Entry>, dir: string, root: Node, supply: Supply): Walked
    requires PlainSuffixes(supply)
  {
    Walk(es, Place(dir, root, 1), {}, Walked([root], false, 0), supply)
  }

  /** Every import is a tree under its root that holds the files found, at most once and in order. */
  lemma ImportIsTree(es: seq<Entry>, dir: string, root: Node, supply: Supply)
    requires PlainSuffixes(supply) && ImportedRoot(root, supply)
    ensures var r := Imported(es, dir, root, supply);
            Tree(r.nodes, supply) && r.nodes[0] == root &&
            Brings(Walked([root], false, 0), r, FilesInAll(es, dir), RegularCountAll(es)) &&
            (!r.truncated && r.skipped == 0 ==> Sources(r.nodes) == FilesInAll(es, dir))
  {
    var w := Walked([root], false, 0);
    WalkKeepsTree(es, Place(dir, root, 1), 0, {}, w, supply);
    WalkBrings(es, Place(dir, root, 1), {}, w, supply);
    assert Sources([root]) == [];
  }

  /** The worker's node list, filled by the walk. */
  class Importer {
    var nodes: seq<Node>
    var truncated: bool
    var skipped: nat
    const supply: Supply

    constructor (root: Node, supply: Supply)
      ensures Now() == Walked([root], false, 0) && this.supply == supply
    {
      nodes, truncated, skipped := [root], false, 0;
      this.supply := supply;
    }

    function Now(): Walked
      reads this
    {
      Walked(nodes, truncated, skipped)
    }

    /** Names an entry among its siblings and adds its node, unless the path is too long. */
    method AddNode(e: Entry, at: Place, siblings: Siblings) returns (added: Option<Node>)
      requires PlainSuffixes(supply) && Regular(e)
      modifies this, siblings
      ensures siblings.seen == SeenAfter(e, at, old(siblings.seen), |old(nodes)|, supply)
      ensures var node := NodeOf(e, at, old(siblings.seen), |old(nodes)|, supply);
              if |node.path| > MAX_FILE_PATH then added == None && Now() == old(Now()).(skipped := old(skipped) + 1)
              else added == Some(node) && Now() == old(Now()).(nodes := old(nodes) + [node])
    {
      ghost var seen := siblings.seen;
      var name := siblings.UniqueSibling(at.parent.id, AskedName(e), Extension(e), supply.random(|nodes|));
      ChosenNameIsComponent(e, at.parent.id, seen, supply.random(|nodes|));
      var path := FilePath(at.parent.path, Leaf(name, Extension(e)));
      if |path| > MAX_FILE_PATH {
        skipped := skipped + 1;
        return None;
      }
      var node := Node(supply.ids(|nodes|), at.parent.id, name, Extension(e), e.Folder?, if e.File? then e.size else 0,
        at.lvl, ParentPath(at.parent.path), path, if e.File? then at.dir + "/" + e.name else "");
      nodes := nodes + [node];
      added := Some(node);
    }

    /** One turn of the walk's loop: add the entry's node, descend into a folder. */
    method WalkEntry(e: Entry, at: Place, siblings: Siblings)
      requires PlainSuffixes(supply)
      modifies this, siblings
      ensures Now() == WalkOne(e, at, old(siblings.seen), old(Now()), supply)
      ensures siblings.seen == SeenAfter(e, at, old(siblings.seen), |old(nodes)|, supply)
      decreases e
    {
      if !Regular(e) { return; }
      ghost var seen, was := siblings.seen, Now();
      var added := AddNode(e, at, siblings);
      if added.Some? && e.Folder? && e.readable {
        WalkEntries(e.kids, Place(at.dir + "/" + e.name, added.value, at.lvl + 1));
        WalkedFolder(e, at, seen, was, supply);
      } else {
        WalkedLeaf(e, at, seen, was, supply);
      }
    }

    method WalkEntries(es: seq<Entry>, at: Place)
      requires PlainSuffixes(supply)
      modifies this
      ensures Now() == Walk(es, at, {}, old(Now()), supply)
      decreases es
    {
      var siblings := new Siblings();
      var i := 0;
      while i < |es|
        invariant 0 <= i <= |es|
        invariant fresh(siblings)
        invariant Walk(es, at, {}, old(Now()), supply) == Walk(es[i..], at, siblings.seen, Now(), supply)
      {
        DropNext(es, i);
        if |nodes| >= MAX_ENTRIES {
          truncated := true;
          return;
        }
        WalkEntry(es[i], at, siblings);
        i := i + 1;
      }
    }
  }
}
