/** Ordering the export's folder rows depth first, with the path each is shown under. */
module FolderTree {
  import opened Options
  import opened Sequences

  datatype Folder = Folder(id: string, parentId: string, depth: nat, name: string)

  /** A folder of the ordered tree with its display path. */
  datatype Placed = Placed(folder: Folder, path: string)

  function PathUnder(trail: string, name: string): string {
    if trail == "" then name else trail + " / " + name
  }

  /** The rows that hang off `id`, in input order. */
  function Kids(folders: seq<Folder>, id: string): seq<Folder> {
    if folders == [] then []
    else if folders[0].parentId == id then [folders[0]] + Kids(folders[1..], id)
    else Kids(folders[1..], id)
  }

  predicate DistinctIds(folders: seq<Folder>) {
    forall i, j :: 0 <= i < j < |folders| ==> folders[i].id != folders[j].id
  }

  lemma {:induction false} KidsAre(folders: seq<Folder>, id: string)
    ensures forall f :: f in Kids(folders, id) <==> f in folders && f.parentId == id
    decreases folders
  {
    if folders != [] { KidsAre(folders[1..], id); }
  }

  predicate Below(folders: seq<Folder>, node: Folder, kids: seq<Folder>) {
    forall f <- kids :: f in folders && f.parentId == node.id
  }

  /** `f` is `k` steps below the folder `top`. */
  ghost predicate Descends(folders: seq<Folder>, f: Folder, top: Folder, k: nat)
    decreases k
  {
    if k == 0 then f == top
    else f in folders && exists g :: g in folders && f.parentId == g.id && Descends(folders, g, top, k - 1)
  }

  /** `top` is `f` or an ancestor of `f`. */
  ghost predicate Under(folders: seq<Folder>, f: Folder, top: Folder) {
    exists k: nat :: Descends(folders, f, top, k)
  }

  /** No row that `node` leads to leads back to itself: what the recursive walk needs to end. */
  ghost predicate NoLoops(folders: seq<Folder>, node: Folder) {
    node in folders && forall f: Folder, k: nat :: Under(folders, f, node) && k > 0 ==> !Descends(folders, f, f, k)
  }

  lemma {:induction false} StepDown(folders: seq<Folder>, f: Folder, c: Folder, top: Folder, k: nat)
    requires Descends(folders, f, c, k) && c in folders && top in folders && c.parentId == top.id
    ensures Descends(folders, f, top, k + 1)
    decreases k
  {
    if k == 0 {
      assert Descends(folders, top, top, 0);
    } else {
      var g :| g in folders && f.parentId == g.id && Descends(folders, g, c, k - 1);
      StepDown(folders, g, c, top, k - 1);
    }
  }

  /** The rows at and below `node`. */
  ghost function Reach(folders: seq<Folder>, node: Folder): set<Folder> {
    set f | f in folders && Under(folders, f, node)
  }

  lemma UnderParent(folders: seq<Folder>, f: Folder, c: Folder, node: Folder)
    requires Under(folders, f, c) && c in folders && node in folders && c.parentId == node.id
    ensures Under(folders, f, node)
  {
    var k: nat :| Descends(folders, f, c, k);
    StepDown(folders, f, c, node, k);
  }

  lemma NotBelowChild(folders: seq<Folder>, node: Folder, c: Folder, k: nat)
    requires NoLoops(folders, node) && c in folders && c.parentId == node.id
    ensures !Descends(folders, node, c, k)
  {
    assert Descends(folders, node, node, 0);
    if Descends(folders, node, c, k) { StepDown(folders, node, c, node, k); }
  }

  /** A child leads to strictly less than its parent. */
  lemma ChildReach(folders: seq<Folder>, node: Folder, c: Folder)
    requires NoLoops(folders, node) && c in folders && c.parentId == node.id
    ensures NoLoops(folders, c) && |Reach(folders, c)| < |Reach(folders, node)|
  {
    forall f | Under(folders, f, c) ensures Under(folders, f, node) {
      UnderParent(folders, f, c, node);
    }
    forall k: nat ensures !Descends(folders, node, c, k) {
      NotBelowChild(folders, node, c, k);
    }
    assert Descends(folders, node, node, 0);
    assert node in Reach(folders, node) - Reach(folders, c);
    Smaller(Reach(folders, c), Reach(folders, node), node);
  }

  lemma Smaller<T>(a: set<T>, b: set<T>, x: T)
    requires a <= b && x in b && x !in a
    ensures |a| < |b|
  {
    var rest := b - a;
    assert x in rest && b == a + rest;
  }

  /** A depth column that rises from a row to its children forbids loops. */
  lemma DepthsForbidLoops(folders: seq<Folder>, node: Folder)
    requires node in folders && forall f <- folders, g <- folders :: f.parentId == g.id ==> g.depth < f.depth
    ensures NoLoops(folders, node)
  {
    forall f: Folder, k: nat | k > 0 ensures !Descends(folders, f, f, k) {
      if Descends(folders, f, f, k) { Deeper(folders, f, f, k); }
    }
  }

  lemma {:induction false} Deeper(folders: seq<Folder>, f: Folder, top: Folder, k: nat)
    requires forall f <- folders, g <- folders :: f.parentId == g.id ==> g.depth < f.depth
    requires Descends(folders, f, top, k) && k > 0
    ensures f.depth > top.depth
    decreases k
  {
    var g :| g in folders && f.parentId == g.id && Descends(folders, g, top, k - 1);
    if k > 1 { Deeper(folders, g, top, k - 1); }
  }

  lemma {:induction false} DescendsOn(folders: seq<Folder>, f: Folder, g: Folder, top: Folder, j: nat, k: nat)
    requires Descends(folders, f, g, j) && Descends(folders, g, top, k)
    ensures Descends(folders, f, top, j + k)
    decreases j
  {
    if j > 0 {
      var h :| h in folders && f.parentId == h.id && Descends(folders, h, g, j - 1);
      DescendsOn(folders, h, g, top, j - 1, k);
    }
  }

  lemma {:induction false} RoundTheLoop(folders: seq<Folder>, f: Folder, node: Folder, j: nat, k: nat, n: nat)
    requires Descends(folders, f, node, j) && Descends(folders, f, f, k) && k > 0
    ensures exists deep: nat :: deep >= n && Descends(folders, f, node, deep)
    decreases n
  {
    if n > 0 {
      RoundTheLoop(folders, f, node, j, k, n - 1);
      var deep: nat :| deep >= n - 1 && Descends(folders, f, node, deep);
      DescendsOn(folders, f, f, node, k, deep);
    }
  }

  /** With a loop the walk goes down without end: it comes to some row at every depth. */
  lemma LoopsNeverEnd(folders: seq<Folder>, node: Folder, n: nat)
    requires node in folders && !NoLoops(folders, node)
    ensures exists f: Folder, deep: nat :: deep >= n && Descends(folders, f, node, deep)
  {
    var f: Folder, k: nat :| Under(folders, f, node) && k > 0 && Descends(folders, f, f, k);
    var j: nat :| Descends(folders, f, node, j);
    RoundTheLoop(folders, f, node, j, k, n);
  }

  /** The depth-first order of one folder and of a list of siblings. */
  function Subtree(folders: seq<Folder>, node: Folder, trail: string): seq<Placed>
    requires NoLoops(folders, node)
    decreases |Reach(folders, node)|, |folders| + 1
  {
    KidsAre(folders, node.id);
    KidsShorter(folders, node.id);
    [Placed(node, PathUnder(trail, node.name))] +
    Subtrees(folders, node, Kids(folders, node.id), PathUnder(trail, node.name))
  }

  function Subtrees(folders: seq<Folder>, node: Folder, kids: seq<Folder>, trail: string): seq<Placed>
    requires NoLoops(folders, node) && Below(folders, node, kids)
    decreases |Reach(folders, node)|, |kids|
  {
    if kids == [] then []
    else
      ChildReach(folders, node, kids[0]);
      Subtree(folders, kids[0], trail) + Subtrees(folders, node, kids[1..], trail)
  }

  lemma {:induction false} KidsShorter(folders: seq<Folder>, id: string)
    ensures |Kids(folders, id)| <= |folders|
    decreases folders
  {
    if folders != [] { KidsShorter(folders[1..], id); }
  }

  /** The first row of depth 0. */
  function Root(folders: seq<Folder>): (r: Option<Folder>)
    ensures r.None? <==> forall i :: 0 <= i < |folders| ==> folders[i].depth != 0
    ensures r.Some? ==> exists i :: 0 <= i < |folders| && folders[i] == r.value && r.value.depth == 0 &&
                                    forall j :: 0 <= j < i ==> folders[j].depth != 0
  {
    if folders == [] then None
    else if folders[0].depth == 0 then Some(folders[0])
    else Root(folders[1..])
  }

  /** The walk from the root ends, if there is a root. */
  ghost predicate Orderable(folders: seq<Folder>) {
    Root(folders).Some? ==> NoLoops(folders, Root(folders).value)
  }

  function Ordered(folders: seq<Folder>): seq<Placed>
    requires Orderable(folders)
  {
    match Root(folders)
    case None => []
    case Some(root) => Subtree(folders, root, "")
  }

  // ----- what the order holds -----

  ghost predicate InOrder(placed: seq<Placed>, f: Folder) {
    exists i :: 0 <= i < |placed| && placed[i].folder == f
  }

  lemma InEither(xs: seq<Placed>, ys: seq<Placed>, f: Folder)
    ensures InOrder(xs + ys, f) <==> InOrder(xs, f) || InOrder(ys, f)
  {
    if InOrder(xs, f) {
      var i :| 0 <= i < |xs| && xs[i].folder == f;
      assert (xs + ys)[i].folder == f;
    }
    if InOrder(ys, f) {
      var i :| 0 <= i < |ys| && ys[i].folder == f;
      assert (xs + ys)[|xs| + i].folder == f;
    }
  }

  /** Going down: a folder with an ancestor-or-self among the siblings' parents goes through a sibling. */
  lemma {:induction false} FirstStep(folders: seq<Folder>, f: Folder, top: Folder, k: nat)
    requires Descends(folders, f, top, k) && k > 0
    ensures exists c :: c in folders && c.parentId == top.id && Descends(folders, f, c, k - 1)
    decreases k
  {
    var g :| g in folders && f.parentId == g.id && Descends(folders, g, top, k - 1);
    if k == 1 {
      assert Descends(folders, f, f, 0);
    } else {
      FirstStep(folders, g, top, k - 1);
      var c :| c in folders && c.parentId == top.id && Descends(folders, g, c, k - 2);
      assert Descends(folders, f, c, k - 1);
    }
  }

  /** The order of a subtree holds exactly the folders under its top. */
  lemma {:induction false} SubtreeHolds(folders: seq<Folder>, node: Folder, trail: string, f: Folder)
    requires NoLoops(folders, node)
    ensures InOrder(Subtree(folders, node, trail), f) <==> Under(folders, f, node)
    decreases |Reach(folders, node)|, |folders| + 1
  {
    var kids, path := Kids(folders, node.id), PathUnder(trail, node.name);
    KidsAre(folders, node.id);
    KidsShorter(folders, node.id);
    SubtreesHold(folders, node, kids, path, f);
    InEither([Placed(node, path)], Subtrees(folders, node, kids, path), f);
    assert [Placed(node, path)][0].folder == node;
    if Under(folders, f, node) && f != node {
      var k: nat :| Descends(folders, f, node, k);
      FirstStep(folders, f, node, k);
      var c :| c in folders && c.parentId == node.id && Descends(folders, f, c, k - 1);
      assert c in kids && Under(folders, f, c);
    }
    if f == node { assert Descends(folders, f, node, 0); }
    if exists c :: c in kids && Under(folders, f, c) {
      var c :| c in kids && Under(folders, f, c);
      var k: nat :| Descends(folders, f, c, k);
      StepDown(folders, f, c, node, k);
    }
  }

  lemma {:induction false} SubtreesHold(folders: seq<Folder>, node: Folder, kids: seq<Folder>, trail: string, f: Folder)
    requires NoLoops(folders, node) && Below(folders, node, kids)
    ensures InOrder(Subtrees(folders, node, kids, trail), f) <==> exists c :: c in kids && Under(folders, f, c)
    decreases |Reach(folders, node)|, |kids|
  {
    if kids != [] {
      ChildReach(folders, node, kids[0]);
      SubtreeHolds(folders, kids[0], trail, f);
      SubtreesHold(folders, node, kids[1..], trail, f);
      InEither(Subtree(folders, kids[0], trail), Subtrees(folders, node, kids[1..], trail), f);
      assert forall c :: c in kids <==> c == kids[0] || c in kids[1..];
    }
  }

  // ----- each folder once -----

  predicate NoRepeat(placed: seq<Placed>) {
    forall i, j :: 0 <= i < j < |placed| ==> placed[i].folder.id != placed[j].folder.id
  }

  predicate FromRows(folders: seq<Folder>, placed: seq<Placed>) {
    forall i :: 0 <= i < |placed| ==> placed[i].folder in folders
  }

  lemma SameIdSameFolder(folders: seq<Folder>, f: Folder, g: Folder)
    requires DistinctIds(folders) && f in folders && g in folders && f.id == g.id
    ensures f == g
  {
  }

  lemma UnderIsRow(folders: seq<Folder>, f: Folder, top: Folder)
    requires top in folders && Under(folders, f, top)
    ensures f in folders
  {
    var k: nat :| Descends(folders, f, top, k);
  }

  /** Two ancestors of one folder are ancestors of one another. */
  lemma {:induction false} Peel(folders: seq<Folder>, f: Folder, a: Folder, b: Folder, i: nat, j: nat)
    requires DistinctIds(folders) && Descends(folders, f, a, i) && Descends(folders, f, b, j) && i <= j
    ensures Descends(folders, a, b, j - i)
    decreases i
  {
    if i > 0 {
      var g :| g in folders && f.parentId == g.id && Descends(folders, g, a, i - 1);
      var h :| h in folders && f.parentId == h.id && Descends(folders, h, b, j - 1);
      SameIdSameFolder(folders, g, h);
      Peel(folders, g, a, b, i - 1, j - 1);
    }
  }

  predicate AreSiblings(folders: seq<Folder>, node: Folder, c: Folder, d: Folder) {
    node in folders && c in folders && d in folders && c != d && c.parentId == node.id && d.parentId == node.id
  }

  lemma NotAboveSibling(folders: seq<Folder>, node: Folder, c: Folder, d: Folder, j: nat)
    requires NoLoops(folders, node) && DistinctIds(folders) && AreSiblings(folders, node, c, d)
    ensures !Descends(folders, c, d, j)
  {
    if Descends(folders, c, d, j) {
      var g :| g in folders && c.parentId == g.id && Descends(folders, g, d, j - 1);
      SameIdSameFolder(folders, g, node);
      NotBelowChild(folders, node, d, j - 1);
      assert false;
    }
  }

  /** Nothing lies under two siblings. */
  lemma SiblingsApart(folders: seq<Folder>, node: Folder, c: Folder, d: Folder, f: Folder)
    requires NoLoops(folders, node) && DistinctIds(folders) && AreSiblings(folders, node, c, d)
    ensures !(Under(folders, f, c) && Under(folders, f, d))
  {
    if Under(folders, f, c) && Under(folders, f, d) {
      var i: nat :| Descends(folders, f, c, i);
      var j: nat :| Descends(folders, f, d, j);
      if i <= j {
        Peel(folders, f, c, d, i, j);
        NotAboveSibling(folders, node, c, d, j - i);
      } else {
        Peel(folders, f, d, c, j, i);
        NotAboveSibling(folders, node, d, c, i - j);
      }
    }
  }

  lemma {:induction false} KidsDistinct(folders: seq<Folder>, id: string)
    requires DistinctIds(folders)
    ensures DistinctIds(Kids(folders, id))
    decreases folders
  {
    if folders != [] {
      assert forall i :: 0 <= i < |folders| - 1 ==> folders[1..][i] == folders[i + 1];
      KidsDistinct(folders[1..], id);
      KidsAre(folders[1..], id);
      forall f | f in Kids(folders[1..], id) ensures f.id != folders[0].id {
        var i :| 0 <= i < |folders| - 1 && folders[1..][i] == f;
      }
    }
  }

  lemma NoRepeatConcat(xs: seq<Placed>, ys: seq<Placed>)
    requires NoRepeat(xs) && NoRepeat(ys)
    requires forall i, j :: 0 <= i < |xs| && 0 <= j < |ys| ==> xs[i].folder.id != ys[j].folder.id
    ensures NoRepeat(xs + ys)
  {
  }

  lemma {:induction false} SubtreeNoRepeat(folders: seq<Folder>, node: Folder, trail: string)
    requires NoLoops(folders, node) && DistinctIds(folders)
    ensures NoRepeat(Subtree(folders, node, trail)) && FromRows(folders, Subtree(folders, node, trail))
    decreases |Reach(folders, node)|, |folders| + 1
  {
    var kids, path := Kids(folders, node.id), PathUnder(trail, node.name);
    KidsAre(folders, node.id);
    KidsShorter(folders, node.id);
    KidsDistinct(folders, node.id);
    SubtreesNoRepeat(folders, node, kids, path);
    var rest := Subtrees(folders, node, kids, path);
    forall j | 0 <= j < |rest| ensures rest[j].folder.id != node.id {
      SubtreesHold(folders, node, kids, path, rest[j].folder);
      assert InOrder(rest, rest[j].folder);
      var c :| c in kids && Under(folders, rest[j].folder, c);
      UnderIsRow(folders, rest[j].folder, c);
      if rest[j].folder.id == node.id {
        var k: nat :| Descends(folders, rest[j].folder, c, k);
        SameIdSameFolder(folders, rest[j].folder, node);
        NotBelowChild(folders, node, c, k);
      }
    }
    NoRepeatConcat([Placed(node, path)], rest);
  }

  lemma {:induction false} SubtreesNoRepeat(folders: seq<Folder>, node: Folder, kids: seq<Folder>, trail: string)
    requires NoLoops(folders, node) && DistinctIds(folders) && Below(folders, node, kids)
    requires DistinctIds(kids)
    ensures NoRepeat(Subtrees(folders, node, kids, trail)) && FromRows(folders, Subtrees(folders, node, kids, trail))
    decreases |Reach(folders, node)|, |kids|
  {
    if kids != [] {
      ChildReach(folders, node, kids[0]);
      var first, rest := Subtree(folders, kids[0], trail), Subtrees(folders, node, kids[1..], trail);
      SubtreeNoRepeat(folders, kids[0], trail);
      SubtreesNoRepeat(folders, node, kids[1..], trail);
      forall i, j | 0 <= i < |first| && 0 <= j < |rest| ensures first[i].folder.id != rest[j].folder.id {
        var f, g := first[i].folder, rest[j].folder;
        if f.id == g.id {
          SameIdSameFolder(folders, f, g);
          SubtreeHolds(folders, kids[0], trail, f);
          SubtreesHold(folders, node, kids[1..], trail, f);
          assert InOrder(first, f) && InOrder(rest, f);
          var d :| d in kids[1..] && Under(folders, f, d);
          SiblingsApart(folders, node, kids[0], d, f);
        }
      }
      NoRepeatConcat(first, rest);
    }
  }

  // ----- parents first, subtrees together -----

  /** The entry at `j` is that of the parent of the entry at `i`, whose path extends its own. */
  predicate HangsOff(placed: seq<Placed>, i: int, j: int) {
    0 <= j < i < |placed| && placed[j].folder.id == placed[i].folder.parentId &&
    placed[i].path == if placed[j].path == "" then placed[i].folder.name
                      else placed[j].path + " / " + placed[i].folder.name
  }

  /** The entry at `i` follows its parent's entry and extends its path. */
  predicate Hangs(placed: seq<Placed>, i: int) {
    exists j :: 0 <= j < i && HangsOff(placed, i, j)
  }

  predicate ParentsFirst(placed: seq<Placed>, from: nat) {
    forall i :: from <= i < |placed| ==> Hangs(placed, i)
  }

  lemma HangsLeft(xs: seq<Placed>, ys: seq<Placed>, i: int)
    requires Hangs(xs, i)
    ensures Hangs(xs + ys, i)
  {
    var j :| 0 <= j < i && HangsOff(xs, i, j);
    assert (xs + ys)[j] == xs[j] && (xs + ys)[i] == xs[i];
    assert HangsOff(xs + ys, i, j);
  }

  lemma HangsRight(xs: seq<Placed>, ys: seq<Placed>, i: int)
    requires Hangs(ys, i)
    ensures Hangs(xs + ys, |xs| + i)
  {
    var j :| 0 <= j < i && HangsOff(ys, i, j);
    assert (xs + ys)[|xs| + j] == ys[j] && (xs + ys)[|xs| + i] == ys[i];
    assert HangsOff(xs + ys, |xs| + i, |xs| + j);
  }

  /** A subtree whose top hangs off the first entry may follow. */
  lemma SubtreeFollows(done: seq<Placed>, first: seq<Placed>)
    requires done != [] && ParentsFirst(done, 1) && first != [] && ParentsFirst(first, 1)
    requires done[0].folder.id == first[0].folder.parentId
    requires first[0].path == PathUnder(done[0].path, first[0].folder.name)
    ensures ParentsFirst(done + first, 1)
  {
    TopHangs(done, first);
    forall i | 1 <= i < |done + first| ensures Hangs(done + first, i) {
      EachHangs(done, first, i);
    }
  }

  lemma EachHangs(done: seq<Placed>, first: seq<Placed>, i: int)
    requires i < |done| ==> Hangs(done, i)
    requires i > |done| ==> Hangs(first, i - |done|)
    requires i == |done| ==> Hangs(done + first, i)
    ensures Hangs(done + first, i)
  {
    if i < |done| {
      HangsLeft(done, first, i);
    } else if i > |done| {
      HangsRight(done, first, i - |done|);
    }
  }

  lemma TopHangs(done: seq<Placed>, first: seq<Placed>)
    requires done != [] && first != [] && done[0].folder.id == first[0].folder.parentId
    requires first[0].path == PathUnder(done[0].path, first[0].folder.name)
    ensures Hangs(done + first, |done|)
  {
    assert (done + first)[0] == done[0] && (done + first)[|done|] == first[0];
    assert HangsOff(done + first, |done|, 0);
  }

  lemma {:induction false} SubtreeParentsFirst(folders: seq<Folder>, node: Folder, trail: string)
    requires NoLoops(folders, node)
    ensures var s := Subtree(folders, node, trail);
            s != [] && s[0] == Placed(node, PathUnder(trail, node.name)) && ParentsFirst(s, 1)
    decreases |Reach(folders, node)|, |folders| + 1
  {
    KidsAre(folders, node.id);
    KidsShorter(folders, node.id);
    SubtreesParentsFirst(folders, node, Kids(folders, node.id), [Placed(node, PathUnder(trail, node.name))]);
  }

  /** After the parent's entry and what follows it, sibling subtrees hang off the parent and themselves. */
  lemma {:induction false} SubtreesParentsFirst(folders: seq<Folder>, node: Folder, kids: seq<Folder>,
      done: seq<Placed>)
    requires NoLoops(folders, node) && Below(folders, node, kids)
    requires done != [] && done[0].folder == node && ParentsFirst(done, 1)
    ensures ParentsFirst(done + Subtrees(folders, node, kids, done[0].path), 1)
    decreases |Reach(folders, node)|, |kids|
  {
    var path := done[0].path;
    if kids == [] {
      Unit(done);
    } else {
      ChildReach(folders, node, kids[0]);
      var first, rest := Subtree(folders, kids[0], path), Subtrees(folders, node, kids[1..], path);
      SubtreeParentsFirst(folders, kids[0], path);
      SubtreeFollows(done, first);
      SubtreesParentsFirst(folders, node, kids[1..], done + first);
      Associative(done, first, rest);
    }
  }

  /** The entries of a folder and of everything below it stand together, in their own order. */
  ghost predicate Together(folders: seq<Folder>, placed: seq<Placed>, i: int)
  {
    0 <= i < |placed| && NoLoops(folders, placed[i].folder) &&
    exists trail :: Subtree(folders, placed[i].folder, trail) <= placed[i..]
  }

  lemma TogetherLeft(folders: seq<Folder>, xs: seq<Placed>, ys: seq<Placed>, i: int)
    requires Together(folders, xs, i)
    ensures Together(folders, xs + ys, i)
  {
    var trail :| Subtree(folders, xs[i].folder, trail) <= xs[i..];
    assert (xs + ys)[i..] == xs[i..] + ys;
  }

  lemma TogetherRight(folders: seq<Folder>, xs: seq<Placed>, ys: seq<Placed>, i: int)
    requires Together(folders, ys, i)
    ensures Together(folders, xs + ys, |xs| + i)
  {
    var trail :| Subtree(folders, ys[i].folder, trail) <= ys[i..];
    assert (xs + ys)[|xs| + i..] == ys[i..];
  }

  lemma {:induction false} SubtreeTogether(folders: seq<Folder>, node: Folder, trail: string, i: int)
    requires NoLoops(folders, node) && 0 <= i < |Subtree(folders, node, trail)|
    ensures Together(folders, Subtree(folders, node, trail), i)
    decreases |Reach(folders, node)|, |folders| + 1
  {
    var kids, path := Kids(folders, node.id), PathUnder(trail, node.name);
    KidsAre(folders, node.id);
    KidsShorter(folders, node.id);
    if i == 0 {
      Whole(Subtree(folders, node, trail));
    } else {
      SubtreesTogether(folders, node, kids, path, i - 1);
      TogetherRight(folders, [Placed(node, path)], Subtrees(folders, node, kids, path), i - 1);
    }
  }

  lemma {:induction false} SubtreesTogether(folders: seq<Folder>, node: Folder, kids: seq<Folder>, trail: string,
      i: int)
    requires NoLoops(folders, node) && Below(folders, node, kids)
    requires 0 <= i < |Subtrees(folders, node, kids, trail)|
    ensures Together(folders, Subtrees(folders, node, kids, trail), i)
    decreases |Reach(folders, node)|, |kids|
  {
    ChildReach(folders, node, kids[0]);
    var first, rest := Subtree(folders, kids[0], trail), Subtrees(folders, node, kids[1..], trail);
    if i < |first| {
      SubtreeTogether(folders, kids[0], trail, i);
      TogetherLeft(folders, first, rest, i);
    } else {
      SubtreesTogether(folders, node, kids[1..], trail, i - |first|);
      TogetherRight(folders, first, rest, i - |first|);
    }
  }

  // ----- siblings in input order -----

  function IfChild(f: Folder, id: string): seq<Folder> {
    if f.parentId == id then [f] else []
  }

  /** The folders of an order that hang off `id`, in that order. */
  function ChildrenIn(placed: seq<Placed>, id: string): seq<Folder> {
    if placed == [] then [] else IfChild(placed[0].folder, id) + ChildrenIn(placed[1..], id)
  }

  lemma {:induction false} ChildrenConcat(xs: seq<Placed>, ys: seq<Placed>, id: string)
    ensures ChildrenIn(xs + ys, id) == ChildrenIn(xs, id) + ChildrenIn(ys, id)
    decreases xs
  {
    if xs == [] {
      assert xs + ys == ys;
    } else {
      HeadOf(xs, ys);
      ChildrenConcat(xs[1..], ys, id);
      Associative(IfChild(xs[0].folder, id), ChildrenIn(xs[1..], id), ChildrenIn(ys, id));
    }
  }

  /** The folder with this id is `top` or lies below it. */
  ghost predicate Owns(folders: seq<Folder>, top: Folder, id: string) {
    exists g :: Under(folders, g, top) && g.id == id
  }

  ghost predicate OneOwns(folders: seq<Folder>, kids: seq<Folder>, id: string) {
    exists c :: c in kids && Owns(folders, c, id)
  }

  /** A folder lies below none of its own children. */
  lemma ChildOwnsNoParent(folders: seq<Folder>, node: Folder, c: Folder)
    requires NoLoops(folders, node) && DistinctIds(folders) && c in folders && c.parentId == node.id
    ensures !Owns(folders, c, node.id)
  {
    if Owns(folders, c, node.id) {
      var g :| Under(folders, g, c) && g.id == node.id;
      var k: nat :| Descends(folders, g, c, k);
      UnderIsRow(folders, g, c);
      SameIdSameFolder(folders, g, node);
      NotBelowChild(folders, node, c, k);
      assert false;
    }
  }

  lemma OneSiblingOwns(folders: seq<Folder>, node: Folder, c: Folder, d: Folder, id: string)
    requires NoLoops(folders, node) && DistinctIds(folders) && AreSiblings(folders, node, c, d)
    ensures !(Owns(folders, c, id) && Owns(folders, d, id))
  {
    if Owns(folders, c, id) && Owns(folders, d, id) {
      var g :| Under(folders, g, c) && g.id == id;
      var h :| Under(folders, h, d) && h.id == id;
      UnderIsRow(folders, g, c);
      UnderIsRow(folders, h, d);
      SameIdSameFolder(folders, g, h);
      SiblingsApart(folders, node, c, d, g);
    }
  }

  lemma OwnsThroughKids(folders: seq<Folder>, node: Folder, id: string)
    requires NoLoops(folders, node) && node.id != id
    ensures Owns(folders, node, id) <==> OneOwns(folders, Kids(folders, node.id), id)
  {
    KidsAre(folders, node.id);
    if Owns(folders, node, id) {
      var g :| Under(folders, g, node) && g.id == id;
      var k: nat :| Descends(folders, g, node, k);
      FirstStep(folders, g, node, k);
      var c :| c in folders && c.parentId == node.id && Descends(folders, g, c, k - 1);
      assert Under(folders, g, c) && c in Kids(folders, node.id);
    }
    if OneOwns(folders, Kids(folders, node.id), id) {
      var c :| c in Kids(folders, node.id) && Owns(folders, c, id);
      var g :| Under(folders, g, c) && g.id == id;
      var k: nat :| Descends(folders, g, c, k);
      StepDown(folders, g, c, node, k);
      assert Under(folders, g, node);
    }
  }

  /** A subtree that holds a folder lists that folder's children, all of them and in input order. */
  lemma {:induction false} SubtreeChildren(folders: seq<Folder>, node: Folder, trail: string, id: string)
    requires NoLoops(folders, node) && DistinctIds(folders)
    ensures ChildrenIn(Subtree(folders, node, trail), id)
         == IfChild(node, id) + (if Owns(folders, node, id) then Kids(folders, id) else [])
    decreases |Reach(folders, node)|, |folders| + 1
  {
    var kids, path := Kids(folders, node.id), PathUnder(trail, node.name);
    KidsAre(folders, node.id);
    KidsShorter(folders, node.id);
    KidsDistinct(folders, node.id);
    ChildrenConcat([Placed(node, path)], Subtrees(folders, node, kids, path), id);
    Single(Placed(node, path));
    Unit(IfChild(node, id));
    if node.id == id {
      assert Descends(folders, node, node, 0);
      assert Under(folders, node, node);
      TopsAreChildren(folders, node, kids, path);
    } else {
      SubtreesChildren(folders, node, kids, path, id);
      OwnsThroughKids(folders, node, id);
    }
  }

  /** Below the folder itself, its children are the tops of its subtrees. */
  lemma {:induction false} TopsAreChildren(folders: seq<Folder>, node: Folder, kids: seq<Folder>, trail: string)
    requires NoLoops(folders, node) && DistinctIds(folders) && Below(folders, node, kids)
    ensures ChildrenIn(Subtrees(folders, node, kids, trail), node.id) == kids
    decreases |Reach(folders, node)|, |kids|
  {
    if kids != [] {
      ChildReach(folders, node, kids[0]);
      SubtreeChildren(folders, kids[0], trail, node.id);
      ChildOwnsNoParent(folders, node, kids[0]);
      TopsAreChildren(folders, node, kids[1..], trail);
      ChildrenConcat(Subtree(folders, kids[0], trail), Subtrees(folders, node, kids[1..], trail), node.id);
      FirstRest(kids);
    }
  }

  /** Elsewhere, at most one of the subtrees lists the children. */
  lemma {:induction false} SubtreesChildren(folders: seq<Folder>, node: Folder, kids: seq<Folder>, trail: string,
      id: string)
    requires NoLoops(folders, node) && DistinctIds(folders) && Below(folders, node, kids)
    requires DistinctIds(kids)
    requires node.id != id
    ensures ChildrenIn(Subtrees(folders, node, kids, trail), id)
         == if OneOwns(folders, kids, id) then Kids(folders, id) else []
    decreases |Reach(folders, node)|, |kids|
  {
    if kids != [] {
      ChildReach(folders, node, kids[0]);
      SubtreeChildren(folders, kids[0], trail, id);
      SubtreesChildren(folders, node, kids[1..], trail, id);
      ChildrenConcat(Subtree(folders, kids[0], trail), Subtrees(folders, node, kids[1..], trail), id);
      FirstKidOwns(folders, node, kids, id);
      Unit(Kids(folders, id));
    }
  }

  lemma FirstKidOwns(folders: seq<Folder>, node: Folder, kids: seq<Folder>, id: string)
    requires NoLoops(folders, node) && DistinctIds(folders) && Below(folders, node, kids)
    requires DistinctIds(kids)
    requires kids != []
    ensures OneOwns(folders, kids, id) <==> Owns(folders, kids[0], id) || OneOwns(folders, kids[1..], id)
    ensures Owns(folders, kids[0], id) ==> !OneOwns(folders, kids[1..], id)
  {
    assert forall c :: c in kids <==> c == kids[0] || c in kids[1..];
    if Owns(folders, kids[0], id) && OneOwns(folders, kids[1..], id) {
      var d :| d in kids[1..] && Owns(folders, d, id);
      OneSiblingOwns(folders, node, kids[0], d, id);
    }
  }

  lemma TopHangsElsewhere(folders: seq<Folder>, root: Folder, f: Folder, k: nat)
    requires NoLoops(folders, root) && f in folders && Descends(folders, f, root, k)
    ensures root.parentId != f.id
  {
    var n: nat := k + 1;
    assert Descends(folders, root, root, 0);
    assert root.parentId == f.id ==> Descends(folders, root, root, n);
  }

  /** Siblings come in input order: the children listed for a folder are its rows as they were given. */
  lemma SiblingsInInputOrder(folders: seq<Folder>, root: Folder, f: Folder)
    requires Orderable(folders) && DistinctIds(folders) && Root(folders) == Some(root) && InOrder(Ordered(folders), f)
    ensures ChildrenIn(Ordered(folders), f.id) == Kids(folders, f.id)
  {
    SubtreeHolds(folders, root, "", f);
    var k: nat :| Descends(folders, f, root, k);
    UnderIsRow(folders, f, root);
    TopHangsElsewhere(folders, root, f, k);
    assert Owns(folders, root, f.id);
    SubtreeChildren(folders, root, "", f.id);
    assert IfChild(root, f.id) == [];
    Unit(Kids(folders, f.id));
  }

  /** Where a row stands among the children of its parent. */
  lemma {:induction false} KidsPlace(folders: seq<Folder>, id: string, i: nat) returns (x: nat)
    requires i < |folders| && folders[i].parentId == id
    ensures x < |Kids(folders, id)| && Kids(folders, id)[x] == folders[i]
    ensures x == |Kids(folders[..i], id)|
    decreases folders
  {
    if i == 0 {
      x := 0;
    } else {
      var y := KidsPlace(folders[1..], id, i - 1);
      assert folders[..i][0] == folders[0] && folders[..i][1..] == folders[1..][..i - 1];
      x := if folders[0].parentId == id then y + 1 else y;
    }
  }

  lemma {:induction false} KidsGrow(folders: seq<Folder>, id: string, i: nat, j: nat)
    requires i < j <= |folders| && folders[i].parentId == id
    ensures |Kids(folders[..i], id)| < |Kids(folders[..j], id)|
    decreases j
  {
    KidsAppend(folders[..j - 1], folders[j - 1]);
    TakeNext(folders, j - 1);
    if i < j - 1 { KidsGrow(folders, id, i, j - 1); }
  }

  lemma {:induction false} ChildPlace(placed: seq<Placed>, id: string, p: nat) returns (x: nat)
    requires p < |placed| && placed[p].folder.parentId == id
    ensures x < |ChildrenIn(placed, id)| && ChildrenIn(placed, id)[x] == placed[p].folder
    ensures x == |ChildrenIn(placed[..p], id)|
    decreases placed
  {
    if p == 0 {
      x := 0;
    } else {
      var y := ChildPlace(placed[1..], id, p - 1);
      assert placed[..p][0] == placed[0] && placed[..p][1..] == placed[1..][..p - 1];
      x := |IfChild(placed[0].folder, id)| + y;
    }
  }

  lemma ChildrenGrow(placed: seq<Placed>, id: string, p: nat, q: nat)
    requires p < q <= |placed| && placed[p].folder.parentId == id
    ensures |ChildrenIn(placed[..p], id)| < |ChildrenIn(placed[..q], id)|
  {
    var rest := placed[..q][p..];
    Halves(placed[..q], p);
    assert placed[..q][..p] == placed[..p];
    ChildrenConcat(placed[..p], rest, id);
    assert rest[0] == placed[p];
  }

  /** Of two rows of one parent, the one given first is listed first. */
  lemma SiblingsKeepOrder(folders: seq<Folder>, root: Folder, i: nat, j: nat, p: nat, q: nat)
    requires Orderable(folders) && DistinctIds(folders) && Root(folders) == Some(root)
    requires i < j < |folders| && folders[i].parentId == folders[j].parentId
    requires p < |Ordered(folders)| && Ordered(folders)[p].folder == folders[i]
    requires q < |Ordered(folders)| && Ordered(folders)[q].folder == folders[j]
    ensures p < q
  {
    var out, id := Ordered(folders), folders[i].parentId;
    ParentIsListed(folders, root, i, j, p, q);
    var f :| InOrder(out, f) && f.id == id;
    SiblingsInInputOrder(folders, root, f);
    var x, y := KidsPlaces(folders, id, i, j);
    var u := ChildPlace(out, id, p);
    var v := ChildPlace(out, id, q);
    KidsDistinct(folders, id);
    assert x == u && y == v;
    if q < p { ChildrenGrow(out, id, q, p); }
  }

  lemma KidsPlaces(folders: seq<Folder>, id: string, i: nat, j: nat) returns (x: nat, y: nat)
    requires i < j < |folders| && folders[i].parentId == folders[j].parentId == id
    ensures x < y < |Kids(folders, id)| && Kids(folders, id)[x] == folders[i] && Kids(folders, id)[y] == folders[j]
  {
    x := KidsPlace(folders, id, i);
    y := KidsPlace(folders, id, j);
    KidsGrow(folders, id, i, j);
  }

  /** Siblings in the order have their parent there too: they are not the root. */
  lemma ParentIsListed(folders: seq<Folder>, root: Folder, i: nat, j: nat, p: nat, q: nat)
    requires Orderable(folders) && DistinctIds(folders) && Root(folders) == Some(root)
    requires i < j < |folders| && folders[i].parentId == folders[j].parentId
    requires p < |Ordered(folders)| && Ordered(folders)[p].folder == folders[i]
    requires q < |Ordered(folders)| && Ordered(folders)[q].folder == folders[j]
    ensures exists f :: InOrder(Ordered(folders), f) && f.id == folders[i].parentId
  {
    var out := Ordered(folders);
    SubtreeParentsFirst(folders, root, "");
    assert folders[i].id != folders[j].id;
    var r := if p > 0 then p else q;
    assert Hangs(out, r);
    var k :| 0 <= k < r && HangsOff(out, r, k);
    assert InOrder(out, out[k].folder);
  }

  /** Depth-first preorder: every folder under the root once, parents first, subtrees together. */
  lemma OrderedIsPreorder(folders: seq<Folder>, root: Folder)
    requires Orderable(folders) && DistinctIds(folders) && Root(folders) == Some(root)
    ensures var out := Ordered(folders);
            out != [] && out[0] == Placed(root, root.name) && NoRepeat(out) && ParentsFirst(out, 1) &&
            (forall f :: InOrder(out, f) <==> Under(folders, f, root)) &&
            (forall f :: InOrder(out, f) ==> ChildrenIn(out, f.id) == Kids(folders, f.id)) &&
            forall i :: 0 <= i < |out| ==> Together(folders, out, i)
  {
    SubtreeNoRepeat(folders, root, "");
    SubtreeParentsFirst(folders, root, "");
    forall f ensures InOrder(Ordered(folders), f) <==> Under(folders, f, root) {
      SubtreeHolds(folders, root, "", f);
    }
    forall f | InOrder(Ordered(folders), f) ensures ChildrenIn(Ordered(folders), f.id) == Kids(folders, f.id) {
      SiblingsInInputOrder(folders, root, f);
    }
    forall i | 0 <= i < |Ordered(folders)| ensures Together(folders, Ordered(folders), i) {
      SubtreeTogether(folders, root, "", i);
    }
  }

  // ----- the ordering as the source computes it -----

  /** The map from parent id to rows, and the list the recursive walk fills. */
  class TreeOrder {
    var byParent: map<string, seq<Folder>>
    var out: seq<Placed>
    ghost const folders: seq<Folder>

    ghost predicate Indexed(folders: seq<Folder>)
      reads `byParent
    {
      forall id :: (if id in byParent then byParent[id] else []) == Kids(folders, id)
    }

    constructor (rows: seq<Folder>)
      ensures Indexed(rows) && out == [] && folders == rows
    {
      folders := rows;
      byParent, out := map[], [];
      new;
      var i := 0;
      Whole(rows);
      while i < |rows|
        invariant 0 <= i <= |rows| && Indexed(rows[..i]) && out == [] && folders == rows
      {
        var key := rows[i].parentId;
        KidsAppend(rows[..i], rows[i]);
        TakeNext(rows, i);
        if key !in byParent { byParent := byParent[key := []]; }
        byParent := byParent[key := byParent[key] + [rows[i]]];
        i := i + 1;
      }
      Whole(rows);
    }

    /** With `out` so far, the subtrees of the children from `i` on are still to come. */
    ghost predicate Walking(goal: seq<Placed>, sofar: seq<Placed>, node: Folder, kids: seq<Folder>, i: nat,
        path: string) {
      NoLoops(folders, node) && i <= |kids| && Below(folders, node, kids[i..]) &&
      goal == sofar + Subtrees(folders, node, kids[i..], path)
    }

    /** One child of the walk's loop. */
    lemma NextKid(goal: seq<Placed>, sofar: seq<Placed>, node: Folder, kids: seq<Folder>, i: nat, path: string)
      requires Walking(goal, sofar, node, kids, i, path) && i < |kids|
      ensures NoLoops(folders, kids[i]) && |Reach(folders, kids[i])| < |Reach(folders, node)|
      ensures Walking(goal, sofar + Subtree(folders, kids[i], path), node, kids, i + 1, path)
    {
      DropNext(kids, i);
      assert kids[i] in kids[i..] && forall f <- kids[i + 1..] :: f in kids[i..];
      ChildReach(folders, node, kids[i]);
      Associative(sofar, Subtree(folders, kids[i], path), Subtrees(folders, node, kids[i + 1..], path));
    }

    lemma WalkStarts(before: seq<Placed>, node: Folder, trail: string, path: string)
      requires NoLoops(folders, node) && path == PathUnder(trail, node.name)
      ensures |Kids(folders, node.id)| <= |folders|
      ensures Walking(before + Subtree(folders, node, trail), before + [Placed(node, path)], node,
                Kids(folders, node.id), 0, path)
    {
      KidsAre(folders, node.id);
      KidsShorter(folders, node.id);
      Whole(Kids(folders, node.id));
      Associative(before, [Placed(node, path)], Subtrees(folders, node, Kids(folders, node.id), path));
    }

    method Walk(node: Folder, trail: string)
      requires Indexed(folders) && NoLoops(folders, node)
      modifies `out
      ensures out == old(out) + Subtree(folders, node, trail)
      decreases |Reach(folders, node)|
    {
      ghost var goal := out + Subtree(folders, node, trail);
      var path := if trail != "" then trail + " / " + node.name else node.name;
      WalkStarts(out, node, trail, path);
      out := out + [Placed(node, path)];
      var kids := if node.id in byParent then byParent[node.id] else [];
      var i := 0;
      while i < |kids|
        invariant Walking(goal, out, node, kids, i, path)
      {
        NextKid(goal, out, node, kids, i, path);
        Walk(kids[i], path);
        i := i + 1;
      }
      Unit(out);
    }
  }

  lemma {:induction false} KidsAppend(folders: seq<Folder>, f: Folder)
    ensures forall id :: Kids(folders + [f], id) == Kids(folders, id) + (if f.parentId == id then [f] else [])
    decreases folders
  {
    if folders == [] {
      Single(f);
      assert folders + [f] == [f];
    } else {
      assert (folders + [f])[1..] == folders[1..] + [f];
      KidsAppend(folders[1..], f);
    }
  }

  method OrderFolderTree(folders: seq<Folder>) returns (out: seq<Placed>)
    requires Orderable(folders)
    ensures out == Ordered(folders)
  {
    var order := new TreeOrder(folders);
    var root := Root(folders);
    if root.Some? {
      order.Walk(root.value, "");
    }
    out := order.out;
  }
}
