/** What the parsed sections say of a document: their pictures, their page, and whether they change. */
module DocxReadings {
  import opened Options
  import opened DocxModel
  import opened DocxParser
  import opened DocxMeaning
  import opened DocxRefinement
  import opened DocxRewrite
  import opened DocxPieces
  import opened DocxNormalized
  import opened Sequences

  // ----- pictures -----

  /** The widths of the pictures of a subtree, in document order. */
  function Extents(n: Node): seq<int>
    decreases n
  {
    (if n.name == Extent then [n.attrs.cx] else []) + ExtentsAll(n.kids)
  }

  function ExtentsAll(ns: seq<Node>): seq<int>
    decreases ns
  {
    if ns == [] then [] else Extents(ns[0]) + ExtentsAll(ns[1..])
  }

  function IfImage(item: Item): seq<int> {
    if item.Image? then [item.emu] else []
  }

  /** The images among some items. */
  function Images(items: seq<Item>): seq<int> {
    if items == [] then [] else IfImage(items[0]) + Images(items[1..])
  }

  lemma {:induction false} ImagesConcat(xs: seq<Item>, ys: seq<Item>)
    ensures Images(xs + ys) == Images(xs) + Images(ys)
    decreases xs
  {
    if xs == [] {
      Unit(ys);
    } else {
      HeadOf(xs, ys);
      ImagesConcat(xs[1..], ys);
      Associative(IfImage(xs[0]), Images(xs[1..]), Images(ys));
    }
  }

  lemma EndsHoldNoImage(n: Node, parent: Name, depth: nat)
    ensures Images(Ending(n, parent, depth)) == []
  {
    assert |Ending(n, parent, depth)| <= 1;
    if Ending(n, parent, depth) != [] { Single(Ending(n, parent, depth)[0]); }
  }

  /** The images of a tree are its pictures, each once and in document order. */
  lemma {:induction false} ImagesAreExtents(n: Node, parent: Name, depth: nat)
    ensures Images(Items(n, parent, depth)) == Extents(n)
    decreases n
  {
    var open, inside := OpenBanked(n.name, n.attrs), ItemsAll(n.kids, n.name, DepthInside(n, depth));
    ImagesAreExtentsAll(n.kids, n.name, DepthInside(n, depth));
    EndsHoldNoImage(n, parent, depth);
    ImagesConcat(open, inside);
    ImagesConcat(open + inside, Ending(n, parent, depth));
    Unit(Extents(n));
    if open != [] { Single(open[0]); }
  }

  lemma {:induction false} ImagesAreExtentsAll(ns: seq<Node>, parent: Name, depth: nat)
    ensures Images(ItemsAll(ns, parent, depth)) == ExtentsAll(ns)
    decreases ns
  {
    if ns != [] {
      ImagesAreExtents(ns[0], parent, depth);
      ImagesAreExtentsAll(ns[1..], parent, depth);
      ImagesConcat(Items(ns[0], parent, depth), ItemsAll(ns[1..], parent, depth));
    }
  }

  /** Twips are the nearest whole number of 635ths of the width; halves go up. */
  lemma RoundToTwipsIsNearest(emu: int)
    ensures -635 < 2 * 635 * RoundToTwips(emu) - 2 * emu <= 635
  {
  }

  /** At least as wide as the picture. */
  predicate Covers(tw: int, cx: int) {
    2 * cx <= 2 * 635 * tw + 634
  }

  // ----- the section a picture belongs to -----

  /** A picture and the number of its section. */
  datatype Picture = Picture(section: nat, cx: int)

  /** How many sections end inside a subtree; a property handed to the paragraph around it ends none here. */
  function EndedIn(n: Node, parent: Name): nat {
    if Exposed(n, parent).Some? then 0 else |Enders(Properties(n, parent))|
  }

  /** The pictures of a subtree before which `k` sections have ended, each with its section. */
  function Pictures(n: Node, parent: Name, k: nat): seq<Picture>
    decreases n
  {
    (if n.name == Extent then [Picture(k, n.attrs.cx)] else []) + PicturesAll(n.kids, n.name, k)
  }

  function PicturesAll(ns: seq<Node>, parent: Name, k: nat): seq<Picture>
    decreases ns
  {
    if ns == [] then [] else Pictures(ns[0], parent, k) + PicturesAll(ns[1..], parent, k + EndedIn(ns[0], parent))
  }

  /** The images among some items before which `k` sections have ended. */
  function Numbering(items: seq<Item>, k: nat): seq<Picture> {
    if items == [] then []
    else (if items[0].Image? then [Picture(k, items[0].emu)] else []) +
         Numbering(items[1..], if items[0].Break? then k + 1 else k)
  }

  lemma {:induction false} NumberingConcat(xs: seq<Item>, ys: seq<Item>, k: nat)
    ensures Numbering(xs + ys, k) == Numbering(xs, k) + Numbering(ys, k + |Breaks(xs)|)
    decreases xs
  {
    if xs == [] {
      Unit(ys);
    } else {
      HeadOf(xs, ys);
      NumberingConcat(xs[1..], ys, if xs[0].Break? then k + 1 else k);
    }
  }

  lemma {:induction false} BreakCount(ps: seq<Property>)
    ensures |BreaksAt(ps)| == |Enders(ps)|
  {
    BreaksOfEnders(ps);
  }

  /** The sections that end among the items of a subtree. */
  lemma EndedAre(n: Node, parent: Name, inPara: bool, depth: nat)
    requires Shaped(n, parent, inPara) && (inPara ==> SectCount(n) <= 1)
    ensures |Breaks(Items(n, parent, depth))| == EndedIn(n, parent)
  {
    NodeAligned(n, parent, inPara, depth);
    BreakCount(Properties(n, parent));
  }

  lemma EndingHasNoPicture(n: Node, parent: Name, depth: nat, k: nat)
    ensures Numbering(Ending(n, parent, depth), k) == []
  {
    assert |Ending(n, parent, depth)| <= 1;
    if Ending(n, parent, depth) != [] { Single(Ending(n, parent, depth)[0]); }
  }

  lemma OwnPicture(n: Node, k: nat)
    ensures Numbering(OpenBanked(n.name, n.attrs), k) == if n.name == Extent then [Picture(k, n.attrs.cx)] else []
    ensures Breaks(OpenBanked(n.name, n.attrs)) == []
  {
    if n.name == Extent { Single(Image(n.attrs.cx)); }
  }

  lemma {:induction false} PicturesAreNumbered(n: Node, parent: Name, inPara: bool, depth: nat, k: nat)
    requires Shaped(n, parent, inPara) && (inPara ==> SectCount(n) <= 1)
    ensures Numbering(Items(n, parent, depth), k) == Pictures(n, parent, k)
    decreases n
  {
    var open, inside := OpenBanked(n.name, n.attrs), ItemsAll(n.kids, n.name, DepthInside(n, depth));
    InsideIsNumbered(n, parent, inPara, depth, k);
    OwnPicture(n, k);
    NumberingConcat(open, inside, k);
    NumberingConcat(open + inside, Ending(n, parent, depth), k);
    EndingHasNoPicture(n, parent, depth, k + |Breaks(open + inside)|);
    Unit(Pictures(n, parent, k));
  }

  lemma {:induction false} InsideIsNumbered(n: Node, parent: Name, inPara: bool, depth: nat, k: nat)
    requires Shaped(n, parent, inPara) && (inPara ==> SectCount(n) <= 1)
    ensures Numbering(ItemsAll(n.kids, n.name, DepthInside(n, depth)), k) == PicturesAll(n.kids, n.name, k)
    decreases n, 0
  {
    if n.name.TblGrid? || n.name.SectPr? {
      QuietItems(n.kids, n.name, DepthInside(n, depth), n.name.TblGrid?);
      QuietPictures(n.kids, n.name, n.name.TblGrid?, k);
    } else {
      PicturesAreNumberedAll(n.kids, n.name, InParaBelow(n, inPara), DepthInside(n, depth), k);
    }
  }

  lemma {:induction false} QuietPictures(ns: seq<Node>, parent: Name, grid: bool, k: nat)
    requires if grid then GridColsAll(ns) else PagePropsAll(ns)
    ensures PicturesAll(ns, parent, k) == []
    decreases ns
  {
    if ns != [] {
      QuietPictures(ns[0].kids, ns[0].name, grid, k);
      QuietPictures(ns[1..], parent, grid, k + EndedIn(ns[0], parent));
    }
  }

  lemma {:induction false} PicturesAreNumberedAll(ns: seq<Node>, parent: Name, inPara: bool, depth: nat, k: nat)
    requires ShapedAll(ns, parent, inPara) && (inPara ==> SectCountAll(ns) <= 1)
    ensures Numbering(ItemsAll(ns, parent, depth), k) == PicturesAll(ns, parent, k)
    decreases ns
  {
    if ns != [] {
      PicturesAreNumbered(ns[0], parent, inPara, depth, k);
      EndedAre(ns[0], parent, inPara, depth);
      PicturesAreNumberedAll(ns[1..], parent, inPara, depth, k + EndedIn(ns[0], parent));
      NumberingConcat(Items(ns[0], parent, depth), ItemsAll(ns[1..], parent, depth), k);
    }
  }

  /** Where a numbered picture stands among the items. */
  lemma {:induction false} NumberedAt(items: seq<Item>, k: nat, p: Picture) returns (i: nat)
    requires p in Numbering(items, k)
    ensures i < |items| && items[i] == Image(p.cx) && p.section == k + |Breaks(items[..i])|
    decreases items
  {
    if items[0].Image? && p == Picture(k, items[0].emu) {
      i := 0;
    } else {
      var j := NumberedAt(items[1..], if items[0].Break? then k + 1 else k, p);
      i := j + 1;
      assert items[..i][0] == items[0] && items[..i][1..] == items[1..][..j];
    }
  }

  lemma BreaksGrow(items: seq<Item>, a: nat, b: nat)
    requires a <= b <= |items|
    ensures |Breaks(items[..a])| <= |Breaks(items[..b])|
    ensures a < b && items[a].Break? ==> |Breaks(items[..a])| < |Breaks(items[..b])|
  {
    var rest := items[..b][a..];
    Halves(items[..b], a);
    assert items[..b][..a] == items[..a];
    BreaksConcat(items[..a], rest);
    if a < b { assert rest[0] == items[a]; }
  }

  /** An item before which `k` sections ended, and which ends none, lies in the stretch of section `k`. */
  lemma LiesInSpan(items: seq<Item>, k: nat, from: nat, to: nat, i: nat)
    requires Spans(items, k, from, to) && i < |items| && !items[i].Break? && |Breaks(items[..i])| == k
    ensures from <= i < to
  {
    SectionsFollowBreaks(items[..to]);
    if i > to { BreaksGrow(items, to, i); }
    if i < from {
      BreaksGrow(items, i, from - 1);
      BreaksGrow(items, from - 1, to);
    }
  }

  /** The items of a document cover their pictures, section by section. */
  lemma NumberedIsCovered(items: seq<Item>, p: Picture)
    requires p in Numbering(items, 0) && p.section < |SectionsOf(items)|
    ensures Covers(SectionsOf(items)[p.section].contentTw, p.cx)
  {
    var i := NumberedAt(items, 0, p);
    SectionOwnsItsItems(items, p.section);
    var from: nat, to: nat :| MadeOf(items, p.section, from, to);
    LiesInSpan(items, p.section, from, to, i);
    ItemIsCovered(items, p.section, from, to, i, p.cx);
  }

  lemma ItemIsCovered(items: seq<Item>, k: nat, from: nat, to: nat, i: nat, cx: int)
    requires MadeOf(items, k, from, to) && from <= i < to && items[i] == Image(cx)
    ensures Covers(SectionsOf(items)[k].contentTw, cx)
  {
    var inside := items[from..to];
    WidestIsMaximum(inside);
    assert inside[i - from] == items[i];
    assert ItemTw(inside[i - from]) == RoundToTwips(cx);
    RoundToTwipsIsNearest(cx);
  }

  /** Every picture of a document is covered by the width of the section it belongs to. */
  lemma PicturesAreCovered(d: Node, p: Picture)
    requires Document(d) && p in PicturesAll(d.kids, d.name, 0) && p.section < |Parsed(Tags(d))|
    ensures Covers(Parsed(Tags(d))[p.section].contentTw, p.cx)
  {
    ParserMeetsMeaning(d);
    PicturesAreNumberedAll(d.kids, d.name, false, 0, 0);
    NumberedIsCovered(ItemsAll(d.kids, d.name, 0), p);
  }

  lemma {:induction false} PicturesHold(n: Node, parent: Name, k: nat, cx: int)
    ensures (exists p :: p in Pictures(n, parent, k) && p.cx == cx) <==> cx in Extents(n)
    decreases n
  {
    PicturesHoldAll(n.kids, n.name, k, cx);
    if n.name == Extent { assert Picture(k, n.attrs.cx) in Pictures(n, parent, k); }
  }

  /** No picture is left without a section. */
  lemma {:induction false} PicturesHoldAll(ns: seq<Node>, parent: Name, k: nat, cx: int)
    ensures (exists p :: p in PicturesAll(ns, parent, k) && p.cx == cx) <==> cx in ExtentsAll(ns)
    decreases ns
  {
    if ns != [] {
      PicturesHold(ns[0], parent, k, cx);
      PicturesHoldAll(ns[1..], parent, k + EndedIn(ns[0], parent), cx);
    }
  }

  // ----- the page of a section -----

  /** Turned by its own word, or by being wider than high. */
  predicate OrientedAs(o: Orientation, size: PageSize) {
    if size.orient.Some? then o == size.orient.value else (o == Landscape <==> size.w > size.h) && !o.Unknown?
  }

  /** A section shows the size, the margins and the orientation of the property that ends it. */
  lemma SectionShowsItsPage(d: Node, k: nat)
    requires Document(d) && k < |Parsed(Tags(d))|
    ensures |Parsed(Tags(d))| == |Enders(PropertiesAll(d.kids, d.name))|
    ensures var s, g := Parsed(Tags(d))[k], GeomOf(Enders(PropertiesAll(d.kids, d.name))[k].sect);
            g.size.Some? && s.index == k && s.w == g.size.value.w && s.h == g.size.value.h &&
            s.left == g.left && s.right == g.right && OrientedAs(s.orient, g.size.value)
  {
    SectionsFollowProperties(d);
    assert HasPageOf(Parsed(Tags(d))[k], Enders(PropertiesAll(d.kids, d.name))[k], k);
  }

  // ----- which sections change -----

  /** The numbers reported are those of the sections that are too wide and have a block. */
  lemma ReportedExactly(tags: seq<Tag>, k: nat)
    requires k < |Parsed(tags)|
    ensures k + 1 in FixedFrom(Parsed(tags), |Blocks(tags, 0)|, 0) <==>
              k < |Blocks(tags, 0)| && TooWide(Parsed(tags)[k])
  {
    FixedAre(Parsed(tags), |Blocks(tags, 0)|, 0, k + 1);
  }

  /** In an editable document exactly the sections that are too wide change. */
  lemma SectionChangesExactly(d: Node, k: nat)
    requires EditableDocument(d) && k < |Parsed(Tags(d))|
    ensures |Parsed(Normalized(Tags(d)))| == |Parsed(Tags(d))|
    ensures Parsed(Normalized(Tags(d)))[k] != Parsed(Tags(d))[k] <==> TooWide(Parsed(Tags(d))[k])
  {
    NormalizedSections(d);
  }

  /** What a turned section becomes: the longer side across, the content and the number as before. */
  lemma TurnedSection(d: Node, k: nat)
    requires EditableDocument(d) && k < |Parsed(Tags(d))| && TooWide(Parsed(Tags(d))[k])
    ensures |Parsed(Normalized(Tags(d)))| == |Parsed(Tags(d))|
    ensures var before, after := Parsed(Tags(d))[k], Parsed(Normalized(Tags(d)))[k];
            after.orient == Landscape && after.contentTw == before.contentTw && after.index == before.index &&
            after.w >= after.h && after.w + after.h == before.w + before.h && after.w in {before.w, before.h}
  {
    NormalizedSections(d);
  }

  /** A number that is not written in digits, or not written at all, stays as it is. */
  lemma UnwrittenStays(a: Attrs, c: Change)
    ensures var b := Changed(c, a);
            (!a.written.w ==> b.w == a.w) && (!a.written.h ==> b.h == a.h) &&
            (!a.written.orient ==> b.orient == a.orient) &&
            (!a.written.left ==> b.left == a.left) && (!a.written.right ==> b.right == a.right)
    ensures var b := Changed(c, a); b.written == a.written && b.cx == a.cx && b.dxa == a.dxa
  {
  }
}
