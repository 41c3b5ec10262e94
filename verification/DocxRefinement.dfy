/** The streaming parser computes the meaning of every document tree. */
module DocxRefinement {
  import opened Options
  import opened DocxModel
  import opened DocxParser
  import opened DocxMeaning
  import opened Sequences

  // ----- the machine on trees -----

  function Visit(s: State, n: Node): State
    decreases n
  {
    StepClose(VisitAll(StepOpen(s, n.name, n.attrs), n.kids), n.name)
  }

  function VisitAll(s: State, ns: seq<Node>): State
    decreases ns
  {
    if ns == [] then s else VisitAll(Visit(s, ns[0]), ns[1..])
  }

  lemma {:induction false} RunConcat(s: State, xs: seq<Tag>, ys: seq<Tag>)
    ensures Run(s, xs + ys) == Run(Run(s, xs), ys)
    decreases xs
  {
    if xs == [] {
      assert xs + ys == ys;
    } else {
      HeadOf(xs, ys);
      RunConcat(Step(s, xs[0]), xs[1..], ys);
    }
  }

  lemma RunOne(s: State, t: Tag)
    ensures Run(s, [t]) == Step(s, t)
  {
    Single(t);
  }

  lemma {:induction false} RunTags(s: State, n: Node)
    ensures Run(s, Tags(n)) == Visit(s, n)
    decreases n
  {
    if n.selfClosed && n.kids == [] {
      RunOne(s, Void(n.name, n.attrs));
    } else {
      var start, end := [Open(n.name, n.attrs)], [Close(n.name)];
      RunConcat(s, start + TagsAll(n.kids), end);
      RunConcat(s, start, TagsAll(n.kids));
      RunOne(s, start[0]);
      RunTagsAll(StepOpen(s, n.name, n.attrs), n.kids);
      RunOne(VisitAll(StepOpen(s, n.name, n.attrs), n.kids), end[0]);
    }
  }

  lemma {:induction false} RunTagsAll(s: State, ns: seq<Node>)
    ensures Run(s, TagsAll(ns)) == VisitAll(s, ns)
    decreases ns
  {
    if ns != [] {
      RunConcat(s, Tags(ns[0]), TagsAll(ns[1..]));
      RunTags(s, ns[0]);
      RunTagsAll(Visit(s, ns[0]), ns[1..]);
    }
  }

  // ----- the table accumulators on trees -----

  function TableVisit(t: TableState, n: Node): TableState
    decreases n
  {
    TableClose(TableVisitAll(TableOpen(t, n.name, n.attrs), n.kids), n.name)
  }

  function TableVisitAll(t: TableState, ns: seq<Node>): TableState
    decreases ns
  {
    if ns == [] then t else TableVisitAll(TableVisit(t, ns[0]), ns[1..])
  }

  predicate AtRest(t: TableState) {
    t.depth >= 0 && t.curGrid.None? && t.tblW >= 0 &&
    (t.depth == 0 ==> t.tblW == 0 && t.tblInd == 0 && t.rowW.None?)
  }

  /** Only content directly inside the outermost table changes its accumulators. */
  function TableAfter(t: TableState, w: nat, ind: int, row: int): TableState {
    if t.depth != 1 then t
    else t.(tblW := Max(t.tblW, w), tblInd := ind,
            rowW := if t.rowW.Some? then Some(t.rowW.value + row) else None)
  }

  /** Inside a grid the columns add up until a former grid takes over. */
  function GridAfter(t: TableState, nested: bool, sum: int, w: nat): TableState {
    if nested && t.depth == 1 then t.(curGrid := None, tblW := Max(t.tblW, w))
    else if t.curGrid.Some? then t.(curGrid := Some(t.curGrid.value + sum))
    else t
  }

  lemma {:induction false} GridVisit(t: TableState, n: Node)
    requires GridCols(n) && t.tblW >= 0 && (t.depth == 1 || t.curGrid.None?)
    ensures TableVisit(t, n) == GridAfter(t, HoldsGrid(n), GridSum(n), Widths(n))
    ensures RowSum(n) == 0 && (!HoldsGrid(n) ==> Widths(n) == 0) && forall i :: LastIndent(i, n) == i
    decreases n
  {
    GridVisitAll(TableOpen(t, n.name, n.attrs), n.kids);
  }

  lemma {:induction false} GridVisitAll(t: TableState, ns: seq<Node>)
    requires GridColsAll(ns) && t.tblW >= 0 && (t.depth == 1 || t.curGrid.None?)
    ensures TableVisitAll(t, ns) == GridAfter(t, HoldsGridAll(ns), GridSumAll(ns), WidthsAll(ns))
    ensures RowSumAll(ns) == 0 && (!HoldsGridAll(ns) ==> WidthsAll(ns) == 0) && forall i :: LastIndentAll(i, ns) == i
    decreases ns
  {
    if ns != [] {
      GridVisit(t, ns[0]);
      GridVisitAll(TableVisit(t, ns[0]), ns[1..]);
    }
  }

  lemma {:induction false} PagePropsTable(t: TableState, n: Node)
    requires PageProps(n)
    ensures TableVisit(t, n) == t && Widths(n) == 0 && RowSum(n) == 0 && forall i :: LastIndent(i, n) == i
    decreases n
  {
    PagePropsTableAll(t, n.kids);
  }

  lemma {:induction false} PagePropsTableAll(t: TableState, ns: seq<Node>)
    requires PagePropsAll(ns)
    ensures TableVisitAll(t, ns) == t && WidthsAll(ns) == 0 && RowSumAll(ns) == 0
    ensures forall i :: LastIndentAll(i, ns) == i
    decreases ns
  {
    if ns != [] {
      PagePropsTable(t, ns[0]);
      PagePropsTableAll(t, ns[1..]);
    }
  }

  lemma {:induction false} TableVisited(t: TableState, n: Node, parent: Name, inPara: bool)
    requires Shaped(n, parent, inPara) && AtRest(t)
    requires t.depth == 1 && t.rowW.Some? ==> NoRow(n)
    ensures TableVisit(t, n) == TableAfter(t, Widths(n), LastIndent(t.tblInd, n), RowSum(n))
    decreases n
  {
    var open := TableOpen(t, n.name, n.attrs);
    if n.name.TblGrid? {
      GridVisit(t, n);
    } else if n.name.SectPr? {
      PagePropsTableAll(open, n.kids);
    } else {
      TableVisitedAll(open, n.kids, n.name, n.name.P? || (inPara && !n.name.Body?));
    }
  }

  lemma {:induction false} TableVisitedAll(t: TableState, ns: seq<Node>, parent: Name, inPara: bool)
    requires ShapedAll(ns, parent, inPara) && AtRest(t)
    requires t.depth == 1 && t.rowW.Some? ==> NoRowAll(ns)
    ensures TableVisitAll(t, ns) == TableAfter(t, WidthsAll(ns), LastIndentAll(t.tblInd, ns), RowSumAll(ns))
    decreases ns
  {
    if ns != [] {
      TableVisited(t, ns[0], parent, inPara);
      TableVisitedAll(TableVisit(t, ns[0]), ns[1..], parent, inPara);
    }
  }

  // ----- the section state on trees -----

  function SectVisit(x: SectState, stack: seq<Name>, n: Node): SectState
    decreases n
  {
    var inner := stack + [n.name];
    SectClose(SectVisitAll(SectOpen(x, n.name, n.attrs, inner), inner, n.kids), n.name, inner)
  }

  function SectVisitAll(x: SectState, stack: seq<Name>, ns: seq<Node>): SectState
    decreases ns
  {
    if ns == [] then x else SectVisitAll(SectVisit(x, stack, ns[0]), stack, ns[1..])
  }

  /** A pending geometry belongs to a paragraph still open, so nothing inside it may take it. */
  predicate Owned(x: SectState, stack: seq<Name>) {
    x.pending.Some? ==> !x.bodyLevel && x.paraDepth < |stack|
  }

  /** Some paragraph will end a section with the pending geometry; otherwise no element will. */
  predicate Owed(x: SectState) {
    x.pending.Some? && x.paraDepth >= 0
  }

  /** `y` is what `x` becomes over content holding `count` sectPr and exposing `exposed`. */
  predicate SectAfter(x: SectState, y: SectState, stack: seq<Name>, count: nat, exposed: Option<Geometry>) {
    if count == 0 then y == x && exposed == None
    else match exposed
         case None => y.pending.Some? ==> !y.bodyLevel && y.paraDepth == -1
         case Some(g) => y == SectState(Some(g), LastPara(stack), false)
  }

  /** Inside a `sectPr` the geometry is read; a former one takes the section away from the body. */
  function SectWithin(x: SectState, stack: seq<Name>, nested: bool, g: Geometry): SectState {
    if nested then SectState(Some(g), LastPara(stack), false) else x.(pending := Some(g))
  }

  lemma LastParaPush(stack: seq<Name>, name: Name)
    ensures LastPara(stack + [name]) == if name == P then |stack| else LastPara(stack)
  {
    LastOf(stack, name);
  }

  predicate Inside(stack: seq<Name>, parent: Name) {
    stack != [] && stack[|stack| - 1] == parent
  }

  lemma {:induction false} PagePropsSect(x: SectState, stack: seq<Name>, n: Node, parent: Name)
    requires PageProps(n) && x.pending.Some? && Inside(stack, parent) && parent != Body
    ensures SectVisit(x, stack, n) == SectWithin(x, stack, SectCount(n) > 0, Geom(x.pending.value, n))
    decreases n
  {
    var inner := stack + [n.name];
    LastParaPush(stack, n.name);
    PagePropsSectAll(SectOpen(x, n.name, n.attrs, inner), inner, n.kids, n.name);
  }

  lemma {:induction false} PagePropsSectAll(x: SectState, stack: seq<Name>, ns: seq<Node>, parent: Name)
    requires PagePropsAll(ns) && x.pending.Some? && Inside(stack, parent) && parent != Body
    ensures SectVisitAll(x, stack, ns) == SectWithin(x, stack, SectCountAll(ns) > 0, GeomAll(x.pending.value, ns))
    decreases ns
  {
    if ns != [] {
      PagePropsSect(x, stack, ns[0], parent);
      PagePropsSectAll(SectVisit(x, stack, ns[0]), stack, ns[1..], parent);
    }
  }

  lemma {:induction false} NoSectInGrid(ns: seq<Node>)
    requires GridColsAll(ns)
    ensures SectCountAll(ns) == 0
    decreases ns
  {
    if ns != [] {
      NoSectInGrid(ns[0].kids);
      NoSectInGrid(ns[1..]);
    }
  }

  /** Content without a sectPr exposes none. */
  lemma {:induction false} NothingExposed(ns: seq<Node>, parent: Name)
    requires SectCountAll(ns) == 0
    ensures ExposedAll(ns, parent) == None
    decreases ns
  {
    if ns != [] {
      NothingExposed(ns[0].kids, ns[0].name);
      NothingExposed(ns[1..], parent);
    }
  }

  lemma {:induction false} GridSect(x: SectState, stack: seq<Name>, n: Node)
    requires GridCols(n)
    ensures SectVisit(x, stack, n) == x
    decreases n
  {
    var inner := stack + [n.name];
    GridSectAll(x, inner, n.kids);
  }

  lemma {:induction false} GridSectAll(x: SectState, stack: seq<Name>, ns: seq<Node>)
    requires GridColsAll(ns)
    ensures SectVisitAll(x, stack, ns) == x
    decreases ns
  {
    if ns != [] {
      GridSect(x, stack, ns[0]);
      GridSectAll(x, stack, ns[1..]);
    }
  }

  predicate InParaBelow(n: Node, inPara: bool) {
    n.name.P? || (inPara && !n.name.Body?)
  }

  /** Where the content of a `parent` stands: in its body or, inside a paragraph, below one. */
  predicate Placed(stack: seq<Name>, parent: Name, inPara: bool) {
    Inside(stack, parent) && (parent == Body ==> !inPara) && (!inPara ==> LastPara(stack) == -1)
  }

  lemma SectPrVisited(x: SectState, stack: seq<Name>, n: Node, parent: Name, inPara: bool)
    requires n.name.SectPr? && PagePropsAll(n.kids) && Placed(stack, parent, inPara)
    ensures SectAfter(x, SectVisit(x, stack, n), stack, SectCount(n), Exposed(n, parent))
  {
    var inner := stack + [n.name];
    LastParaPush(stack, n.name);
    PagePropsSectAll(SectOpen(x, n.name, n.attrs, inner), inner, n.kids, n.name);
  }

  lemma {:induction false} SectVisited(x: SectState, stack: seq<Name>, n: Node, parent: Name, inPara: bool)
    requires Shaped(n, parent, inPara) && Placed(stack, parent, inPara)
    requires inPara ==> SectCount(n) <= 1
    requires Owned(x, stack) && (Owed(x) ==> SectCount(n) == 0)
    ensures SectAfter(x, SectVisit(x, stack, n), stack, SectCount(n), Exposed(n, parent))
    decreases n
  {
    var inner := stack + [n.name];
    var open := SectOpen(x, n.name, n.attrs, inner);
    LastParaPush(stack, n.name);
    if n.name.TblGrid? {
      GridSectAll(open, inner, n.kids);
      NoSectInGrid(n.kids);
      NothingExposed(n.kids, n.name);
    } else if n.name.SectPr? {
      SectPrVisited(x, stack, n, parent, inPara);
    } else {
      SectVisitedAll(open, inner, n.kids, n.name, InParaBelow(n, inPara));
    }
  }

  lemma {:induction false} SectVisitedAll(x: SectState, stack: seq<Name>, ns: seq<Node>, parent: Name, inPara: bool)
    requires ShapedAll(ns, parent, inPara) && Placed(stack, parent, inPara)
    requires inPara ==> SectCountAll(ns) <= 1
    requires Owned(x, stack) && (Owed(x) ==> SectCountAll(ns) == 0)
    ensures SectAfter(x, SectVisitAll(x, stack, ns), stack, SectCountAll(ns), ExposedAll(ns, parent))
    decreases ns
  {
    if ns != [] {
      SectVisited(x, stack, ns[0], parent, inPara);
      if !inPara { OnlyParagraphsExpose(ns[0], parent); }
      SectVisitedAll(SectVisit(x, stack, ns[0]), stack, ns[1..], parent, inPara);
      if !inPara { OnlyParagraphsExposeAll(ns[1..], parent); }
    }
  }

  /** Outside paragraphs every sectPr is the body's own. */
  lemma {:induction false} OnlyParagraphsExpose(n: Node, parent: Name)
    requires Shaped(n, parent, false)
    ensures Exposed(n, parent) == None
    decreases n
  {
    if n.name.TblGrid? {
      NoSectInGrid(n.kids);
      NothingExposed(n.kids, n.name);
    } else if !n.name.SectPr? && !n.name.P? {
      OnlyParagraphsExposeAll(n.kids, n.name);
    }
  }

  lemma {:induction false} OnlyParagraphsExposeAll(ns: seq<Node>, parent: Name)
    requires ShapedAll(ns, parent, false)
    ensures ExposedAll(ns, parent) == None
    decreases ns
  {
    if ns != [] {
      OnlyParagraphsExpose(ns[0], parent);
      OnlyParagraphsExposeAll(ns[1..], parent);
    }
  }

  // ----- the buckets -----

  /** A visit moves the table and section states independently and restores the stack. */
  lemma {:induction false} VisitParts(s: State, n: Node)
    ensures Visit(s, n).table == TableVisit(s.table, n)
    ensures Visit(s, n).sect == SectVisit(s.sect, s.stack, n)
    ensures Visit(s, n).stack == s.stack
    decreases n
  {
    VisitAllParts(StepOpen(s, n.name, n.attrs), n.kids);
    LastOf(s.stack, n.name);
  }

  lemma {:induction false} VisitAllParts(s: State, ns: seq<Node>)
    ensures VisitAll(s, ns).table == TableVisitAll(s.table, ns)
    ensures VisitAll(s, ns).sect == SectVisitAll(s.sect, s.stack, ns)
    ensures VisitAll(s, ns).stack == s.stack
    decreases ns
  {
    if ns != [] {
      VisitParts(s, ns[0]);
      VisitAllParts(Visit(s, ns[0]), ns[1..]);
    }
  }

  /** Grid columns and page properties hold no items. */
  lemma {:induction false} QuietItems(ns: seq<Node>, parent: Name, depth: nat, grid: bool)
    requires (if grid then GridColsAll(ns) else PagePropsAll(ns)) && parent != Body
    ensures ItemsAll(ns, parent, depth) == []
    decreases ns
  {
    if ns != [] {
      QuietItems(ns[0].kids, ns[0].name, depth, grid);
      QuietItems(ns[1..], parent, depth, grid);
    }
  }

  /** A `sectPr` inside something other than the body ends no section when it closes. */
  lemma FormerBanksNothing(s: State, n: Node, parent: Name)
    requires n.name.SectPr? && PagePropsAll(n.kids) && Inside(s.stack, parent) && parent != Body
    ensures var t := VisitAll(StepOpen(s, n.name, n.attrs), n.kids);
            SectBanked(t.sect, n.name, t.stack) == []
  {
    var open := StepOpen(s, n.name, n.attrs);
    VisitAllParts(open, n.kids);
    PagePropsSectAll(open.sect, open.stack, n.kids, SectPr);
  }

  lemma {:induction false} QuietVisitOne(s: State, n: Node, parent: Name, grid: bool)
    requires (if grid then GridCols(n) else PageProps(n)) && Inside(s.stack, parent) && parent != Body
    ensures Visit(s, n).buckets == s.buckets
    decreases n, 1
  {
    QuietVisit(StepOpen(s, n.name, n.attrs), n.kids, n.name, grid);
    if n.name.SectPr? { FormerBanksNothing(s, n, parent); }
  }

  /** Grid columns and page properties bank nothing. */
  lemma {:induction false} QuietVisit(s: State, ns: seq<Node>, parent: Name, grid: bool)
    requires (if grid then GridColsAll(ns) else PagePropsAll(ns)) && Inside(s.stack, parent) && parent != Body
    ensures VisitAll(s, ns).buckets == s.buckets
    decreases ns, 0
  {
    if ns != [] {
      QuietVisitOne(s, ns[0], parent, grid);
      VisitParts(s, ns[0]);
      QuietVisit(Visit(s, ns[0]), ns[1..], parent, grid);
    }
  }

  /** The machine may visit siblings `ns` of an element named `parent`. */
  predicate Ready(s: State, ns: seq<Node>, parent: Name, inPara: bool) {
    ShapedAll(ns, parent, inPara) && Placed(s.stack, parent, inPara) &&
    (inPara ==> SectCountAll(ns) <= 1) &&
    Owned(s.sect, s.stack) && (Owed(s.sect) ==> SectCountAll(ns) == 0) &&
    AtRest(s.table) && (s.table.depth == 1 && s.table.rowW.Some? ==> NoRowAll(ns))
  }

  predicate ReadyFor(s: State, n: Node, parent: Name, inPara: bool) {
    Shaped(n, parent, inPara) && Placed(s.stack, parent, inPara) &&
    (inPara ==> SectCount(n) <= 1) &&
    Owned(s.sect, s.stack) && (Owed(s.sect) ==> SectCount(n) == 0) &&
    AtRest(s.table) && (s.table.depth == 1 && s.table.rowW.Some? ==> NoRow(n))
  }

  function Opened(s: State, n: Node): State {
    StepOpen(s, n.name, n.attrs)
  }

  function DepthInside(n: Node, depth: nat): nat {
    if n.name == Tbl then depth + 1 else depth
  }

  /** Inside an ordinary element the machine is ready for its children. */
  lemma ReadyInside(s: State, n: Node, parent: Name, inPara: bool)
    requires ReadyFor(s, n, parent, inPara) && !n.name.TblGrid? && !n.name.SectPr?
    ensures Ready(Opened(s, n), n.kids, n.name, InParaBelow(n, inPara))
    ensures Opened(s, n).table.depth == DepthInside(n, s.table.depth)
  {
    LastParaPush(s.stack, n.name);
  }

  /** What closing `n` banks is what its tree says it ends. */
  predicate EndingIsBanked(s: State, n: Node, parent: Name) {
    s.table.depth >= 0 &&
    (var t := VisitAll(Opened(s, n), n.kids);
     TableBanked(t.table, n.name) + SectBanked(t.sect, n.name, t.stack) == Ending(n, parent, s.table.depth))
  }

  lemma TableEnds(s: State, n: Node, parent: Name, inPara: bool)
    requires ReadyFor(s, n, parent, inPara) && n.name.Tbl?
    ensures EndingIsBanked(s, n, parent)
  {
    VisitAllParts(Opened(s, n), n.kids);
    TableVisitedAll(Opened(s, n).table, n.kids, Tbl, inPara);
  }

  lemma SectEnds(s: State, n: Node, parent: Name, inPara: bool)
    requires ReadyFor(s, n, parent, inPara) && n.name.SectPr?
    ensures EndingIsBanked(s, n, parent)
  {
    var open := Opened(s, n);
    VisitAllParts(open, n.kids);
    PagePropsSectAll(open.sect, open.stack, n.kids, SectPr);
  }

  lemma ParaEnds(s: State, n: Node, parent: Name, inPara: bool)
    requires ReadyFor(s, n, parent, inPara) && n.name.P?
    ensures EndingIsBanked(s, n, parent)
  {
    var open := Opened(s, n);
    VisitAllParts(open, n.kids);
    LastParaPush(s.stack, n.name);
    SectVisitedAll(open.sect, open.stack, n.kids, P, true);
  }

  lemma EndingBanked(s: State, n: Node, parent: Name, inPara: bool)
    requires ReadyFor(s, n, parent, inPara)
    ensures EndingIsBanked(s, n, parent)
  {
    if n.name.Tbl? {
      TableEnds(s, n, parent, inPara);
    } else if n.name.SectPr? {
      SectEnds(s, n, parent, inPara);
    } else if n.name.P? {
      ParaEnds(s, n, parent, inPara);
    }
  }

  lemma {:induction false} BucketsVisited(s: State, n: Node, parent: Name, inPara: bool)
    requires ReadyFor(s, n, parent, inPara)
    ensures Visit(s, n).buckets == BankAll(s.buckets, Items(n, parent, s.table.depth))
    decreases n, 1
  {
    var opening, middle := OpenBanked(n.name, n.attrs), ItemsAll(n.kids, n.name, DepthInside(n, s.table.depth));
    KidsVisited(s, n, parent, inPara);
    EndingBanked(s, n, parent, inPara);
    BankBoth(s.buckets, opening, middle);
    BankBoth(s.buckets, opening + middle, Ending(n, parent, s.table.depth));
  }

  lemma {:induction false} KidsVisited(s: State, n: Node, parent: Name, inPara: bool)
    requires ReadyFor(s, n, parent, inPara)
    ensures VisitAll(Opened(s, n), n.kids).buckets
         == BankAll(Opened(s, n).buckets, ItemsAll(n.kids, n.name, DepthInside(n, s.table.depth)))
    decreases n, 0
  {
    if n.name.TblGrid? {
      QuietItems(n.kids, n.name, s.table.depth, true);
      QuietVisit(Opened(s, n), n.kids, n.name, true);
    } else if n.name.SectPr? {
      QuietItems(n.kids, n.name, s.table.depth, false);
      QuietVisit(Opened(s, n), n.kids, n.name, false);
    } else {
      ReadyInside(s, n, parent, inPara);
      BucketsVisitedAll(Opened(s, n), n.kids, n.name, InParaBelow(n, inPara));
    }
  }

  lemma FirstIsReady(s: State, ns: seq<Node>, parent: Name, inPara: bool)
    requires ns != [] && Ready(s, ns, parent, inPara)
    ensures ReadyFor(s, ns[0], parent, inPara)
  {
  }

  /** After the first of several siblings the machine is ready for the rest. */
  lemma ReadyForRest(s: State, ns: seq<Node>, parent: Name, inPara: bool)
    requires ns != [] && Ready(s, ns, parent, inPara) && ReadyFor(s, ns[0], parent, inPara)
    ensures Ready(Visit(s, ns[0]), ns[1..], parent, inPara)
    ensures Visit(s, ns[0]).table.depth == s.table.depth
  {
    var n := ns[0];
    VisitParts(s, n);
    TableVisited(s.table, n, parent, inPara);
    SectVisited(s.sect, s.stack, n, parent, inPara);
    if !inPara { OnlyParagraphsExpose(n, parent); }
  }

  lemma {:induction false} BucketsVisitedAll(s: State, ns: seq<Node>, parent: Name, inPara: bool)
    requires Ready(s, ns, parent, inPara)
    ensures VisitAll(s, ns).buckets == BankAll(s.buckets, ItemsAll(ns, parent, s.table.depth))
    decreases ns
  {
    if ns != [] {
      FirstIsReady(s, ns, parent, inPara);
      ReadyForRest(s, ns, parent, inPara);
      BucketsVisited(s, ns[0], parent, inPara);
      BucketsVisitedAll(Visit(s, ns[0]), ns[1..], parent, inPara);
      BankBoth(s.buckets, Items(ns[0], parent, s.table.depth), ItemsAll(ns[1..], parent, s.table.depth));
    }
  }

  /** On every document the streaming parser yields the sections of the document's items. */
  lemma ParserMeetsMeaning(d: Node)
    requires Document(d)
    ensures Parsed(Tags(d)) == SectionsOf(ItemsAll(d.kids, d.name, 0))
  {
    RunTags(START, d);
    var open := StepOpen(START, d.name, d.attrs);
    BucketsVisitedAll(open, d.kids, d.name, false);
    BankingMakesSections(ItemsAll(d.kids, d.name, 0));
  }
}
