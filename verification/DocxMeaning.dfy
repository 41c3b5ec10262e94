/**
 * What a document tree means to the section parser: the tables, images and section ends it
 * holds, in document order, and the sections they make. The streaming machine of `DocxParser`
 * computes exactly this on every document.
 */
module DocxMeaning {
  import opened Options
  import opened DocxModel
  import opened DocxParser
  import opened Sequences

  // ----- the width a table declares -----

  /** Sum of the grid columns in a subtree. */
  function GridSum(n: Node): int
    decreases n
  {
    (if n.name == GridCol then n.attrs.w else 0) + GridSumAll(n.kids)
  }

  function GridSumAll(ns: seq<Node>): int
    decreases ns
  {
    if ns == [] then 0 else GridSum(ns[0]) + GridSumAll(ns[1..])
  }

  /** Sum of the cell widths of a row, nested tables excluded. */
  function RowSum(n: Node): int
    decreases n
  {
    if n.name == Tbl then 0
    else (if n.name == TcW && n.attrs.dxa then n.attrs.w else 0) + RowSumAll(n.kids)
  }

  function RowSumAll(ns: seq<Node>): int
    decreases ns
  {
    if ns == [] then 0 else RowSum(ns[0]) + RowSumAll(ns[1..])
  }

  /** The width one element declares for the table around it; a revised grid leaves that to its former grid. */
  function Declared(n: Node): int {
    match n.name
    case TblW => if n.attrs.dxa then n.attrs.w else 0
    case TblGrid => if HoldsGridAll(n.kids) then 0 else GridSumAll(n.kids)
    case Tr => RowSumAll(n.kids)
    case _ => 0
  }

  /** The widest declaration in a subtree, nested tables excluded. */
  function Widths(n: Node): nat
    decreases n
  {
    if n.name == Tbl then 0 else Max(Declared(n), WidthsAll(n.kids))
  }

  function WidthsAll(ns: seq<Node>): nat
    decreases ns
  {
    if ns == [] then 0 else Max(Widths(ns[0]), WidthsAll(ns[1..]))
  }

  /** The last indent a subtree declares, nested tables excluded; `ind` when it declares none. */
  function LastIndent(ind: int, n: Node): int
    decreases n
  {
    if n.name == Tbl then ind
    else LastIndentAll(if n.name == TblInd && n.attrs.dxa then n.attrs.w else ind, n.kids)
  }

  function LastIndentAll(ind: int, ns: seq<Node>): int
    decreases ns
  {
    if ns == [] then ind else LastIndentAll(LastIndent(ind, ns[0]), ns[1..])
  }

  function TableWidth(table: Node): int {
    WidthsAll(table.kids) + Max(0, LastIndentAll(0, table.kids))
  }

  // ----- the geometry a sectPr declares, and who owns it -----

  /** Geometry as read through an element; a former `sectPr` starts over. */
  function Geom(g: Geometry, n: Node): Geometry
    decreases n
  {
    var own := match n.name
      case SectPr => Geometry(None, 0, 0)
      case PgSz => g.(size := Some(PageSize(n.attrs.w, n.attrs.h, n.attrs.orient)))
      case PgMar => g.(left := n.attrs.left, right := n.attrs.right)
      case _ => g;
    GeomAll(own, n.kids)
  }

  function GeomAll(g: Geometry, ns: seq<Node>): Geometry
    decreases ns
  {
    if ns == [] then g else GeomAll(Geom(g, ns[0]), ns[1..])
  }

  function GeomOf(sect: Node): Geometry {
    GeomAll(Geometry(None, 0, 0), sect.kids)
  }

  /** The geometry a subtree hands to the paragraph around it. */
  function Exposed(n: Node, parent: Name): Option<Geometry>
    decreases n
  {
    match n.name
    case SectPr => if parent == Body then None else Some(GeomOf(n))
    case P => None
    case _ => ExposedAll(n.kids, n.name)
  }

  function ExposedAll(ns: seq<Node>, parent: Name): Option<Geometry>
    decreases ns
  {
    if ns == [] then None
    else match Exposed(ns[0], parent)
         case Some(g) => Some(g)
         case None => ExposedAll(ns[1..], parent)
  }

  // ----- the items of a document -----

  /** What the end of an element banks: its table width, or the end of a section. */
  function Ending(n: Node, parent: Name, depth: nat): seq<Item> {
    match n.name
    case Tbl => if depth == 0 then [Table(TableWidth(n))] else []
    case SectPr => if parent == Body && !Revised(n) then BreakOf(GeomOf(n)) else []
    case P =>
      (match ExposedAll(n.kids, P)
       case Some(g) => BreakOf(g)
       case None => [])
    case _ => []
  }

  /** The items of a subtree inside `depth` tables, in document order. */
  function Items(n: Node, parent: Name, depth: nat): seq<Item>
    decreases n
  {
    OpenBanked(n.name, n.attrs) +
    ItemsAll(n.kids, n.name, if n.name == Tbl then depth + 1 else depth) +
    Ending(n, parent, depth)
  }

  function ItemsAll(ns: seq<Node>, parent: Name, depth: nat): seq<Item>
    decreases ns
  {
    if ns == [] then [] else Items(ns[0], parent, depth) + ItemsAll(ns[1..], parent, depth)
  }

  // ----- the section properties of a document -----

  /** A section property, and whether it is the body's own. */
  datatype Property = Property(sect: Node, atBody: bool)

  /** The section properties of a subtree, in document order; those inside another one belong to it. */
  function Properties(n: Node, parent: Name): seq<Property>
    decreases n
  {
    if n.name == SectPr then [Property(n, parent == Body)] else PropertiesAll(n.kids, n.name)
  }

  function PropertiesAll(ns: seq<Node>, parent: Name): seq<Property>
    decreases ns
  {
    if ns == [] then [] else Properties(ns[0], parent) + PropertiesAll(ns[1..], parent)
  }

  /** A property ends a section if a page size is read from it and, at body level, it records no revision. */
  predicate EndsSection(p: Property) {
    GeomOf(p.sect).size.Some? && !(p.atBody && Revised(p.sect))
  }

  function Enders(ps: seq<Property>): seq<Property> {
    if ps == [] then [] else if EndsSection(ps[0]) then [ps[0]] + Enders(ps[1..]) else Enders(ps[1..])
  }

  // ----- the sections of a list of items -----

  function ItemTw(item: Item): int {
    match item
    case Table(tw) => tw
    case Image(emu) => RoundToTwips(emu)
    case Break(_, _, _) => 0
  }

  /** The widest item, in twips; 0 when there is none. */
  function Widest(items: seq<Item>): nat {
    if items == [] then 0 else Max(Widest(items[..|items| - 1]), ItemTw(items[|items| - 1]))
  }

  /** The items after the last section end. */
  function SinceBreak(items: seq<Item>): seq<Item> {
    if items == [] || items[|items| - 1].Break? then []
    else SinceBreak(items[..|items| - 1]) + [items[|items| - 1]]
  }

  /** One section per `Break`, holding the items since the previous one. */
  function SectionsOf(items: seq<Item>): seq<Section> {
    if items == [] then []
    else
      var before := items[..|items| - 1];
      match items[|items| - 1]
      case Break(size, left, right) =>
        SectionsOf(before) + [Ended(|SectionsOf(before)|, size, left, right, Widest(SinceBreak(before)))]
      case _ => SectionsOf(before)
  }

  lemma {:induction false} WidestIsMaximum(items: seq<Item>)
    ensures forall i :: 0 <= i < |items| ==> ItemTw(items[i]) <= Widest(items)
    ensures Widest(items) == 0 || exists i :: 0 <= i < |items| && ItemTw(items[i]) == Widest(items)
  {
    if items != [] {
      var before := items[..|items| - 1];
      WidestIsMaximum(before);
      assert forall i :: 0 <= i < |before| ==> items[i] == before[i];
      if Widest(items) != 0 && Widest(items) == Widest(before) {
        var i :| 0 <= i < |before| && ItemTw(before[i]) == Widest(before);
        assert ItemTw(items[i]) == Widest(items);
      }
    }
  }

  /** Items `from..to` are all the content between two consecutive section ends, the `k`-th at `to`. */
  ghost predicate Spans(items: seq<Item>, k: nat, from: nat, to: nat) {
    from <= to < |items| && items[to].Break? && (from == 0 || items[from - 1].Break?) &&
    (forall i :: from <= i < to ==> !items[i].Break?) &&
    |SectionsOf(items[..to])| == k
  }

  /** Section `k` is made of the items `from..to` and ends at `to`. */
  ghost predicate MadeOf(items: seq<Item>, k: nat, from: nat, to: nat) {
    Spans(items, k, from, to) && k < |SectionsOf(items)| &&
    SectionsOf(items)[k] == Ended(k, items[to].size, items[to].left, items[to].right, Widest(items[from..to]))
  }

  /** A later item leaves the earlier sections alone. */
  lemma SectionStays(items: seq<Item>, last: Item, k: nat, from: nat, to: nat)
    requires MadeOf(items, k, from, to)
    ensures MadeOf(items + [last], k, from, to)
  {
    var more := items + [last];
    LastOf(items, last);
    assert more[from..to] == items[from..to] && more[..to] == items[..to];
    assert forall i :: 0 <= i <= to ==> more[i] == items[i];
  }

  lemma EndSpans(items: seq<Item>, last: Item, from: nat)
    requires last.Break? && from + |SinceBreak(items)| == |items|
    ensures Spans(items + [last], |SectionsOf(items)|, from, |items|)
  {
    LastOf(items, last);
    SinceBreakIsSuffix(items);
  }

  /** A section end makes a section of the items since the previous one. */
  lemma SectionEnds(items: seq<Item>, last: Item, from: nat)
    requires last.Break? && from + |SinceBreak(items)| == |items|
    ensures MadeOf(items + [last], |SectionsOf(items)|, from, |items|)
  {
    EndSpans(items, last, from);
    LastOf(items, last);
    SinceBreakIsSuffix(items);
    assert (items + [last])[from..|items|] == items[from..];
  }

  /** Section `k` holds exactly the items between two consecutive section ends. */
  lemma {:induction false} SectionOwnsItsItems(items: seq<Item>, k: nat)
    requires k < |SectionsOf(items)|
    ensures exists from: nat, to: nat :: MadeOf(items, k, from, to)
  {
    var before, last := items[..|items| - 1], items[|items| - 1];
    InitLast(items);
    if k < |SectionsOf(before)| {
      SectionOwnsItsItems(before, k);
      var from: nat, to: nat :| MadeOf(before, k, from, to);
      SectionStays(before, last, k, from, to);
      assert MadeOf(items, k, from, to);
    } else {
      SinceBreakIsSuffix(before);
      var from: nat := |before| - |SinceBreak(before)|;
      SectionEnds(before, last, from);
      assert MadeOf(items, k, from, |before|);
    }
  }

  lemma {:induction false} SinceBreakIsSuffix(items: seq<Item>)
    ensures |SinceBreak(items)| <= |items|
    ensures SinceBreak(items) == items[|items| - |SinceBreak(items)|..]
    ensures forall i :: |items| - |SinceBreak(items)| <= i < |items| ==> !items[i].Break?
    ensures |SinceBreak(items)| < |items| ==> items[|items| - |SinceBreak(items)| - 1].Break?
  {
    if items != [] && !items[|items| - 1].Break? {
      SinceBreakIsSuffix(items[..|items| - 1]);
    }
  }

  /** Rounding the widest image gives the widest rounded image. */
  lemma RoundingIsMonotone(a: int, b: int)
    ensures RoundToTwips(Max(a, b)) == Max(RoundToTwips(a), RoundToTwips(b))
  {
  }

  /** Banking items one by one makes the sections of the list. */
  lemma {:induction false} BankingMakesSections(items: seq<Item>)
    ensures var b := BankAll(START.buckets, items);
            b.sections == SectionsOf(items) &&
            b.maxTw >= 0 && b.maxEmu >= 0 &&
            Max(b.maxTw, RoundToTwips(b.maxEmu)) == Widest(SinceBreak(items))
  {
    if items != [] {
      var before, last := items[..|items| - 1], items[|items| - 1];
      BankingMakesSections(before);
      BankBoth(START.buckets, before, [last]);
      InitLast(items);
      var b := BankAll(START.buckets, before);
      BankOne(b, last);
      if last.Image? { RoundingIsMonotone(b.maxEmu, last.emu); }
      if !last.Break? {
        assert (SinceBreak(before) + [last])[..|SinceBreak(before)|] == SinceBreak(before);
      }
    }
  }
}
